/**
  The size-limited log writer: a buffered active file and numbered backups, shifted in place when the active file is
  full.
 */
module LogRotation {

  const U64_MAX := 0xFFFF_FFFF_FFFF_FFFF

  /** Bytes that the buffer in front of the active file holds. */
  const CAPACITY: nat := 8192

  function Saturated(n: nat): (r: nat)
    ensures r <= 0xFFFF_FFFF_FFFF_FFFF
    ensures n <= 0xFFFF_FFFF_FFFF_FFFF ==> r == n
    ensures n > 0xFFFF_FFFF_FFFF_FFFF ==> r == 0xFFFF_FFFF_FFFF_FFFF
  {
    if n > U64_MAX then U64_MAX else n
  }

  function SaturatingAdd(a: nat, b: nat): (r: nat)
    ensures r <= U64_MAX
  {
    Saturated(a + b)
  }

  // ---------- bytes and files ----------

  /**
    One byte of the log. `pos` is its place among all bytes that were accepted or reached a file, `start` the place of
    the first byte of its record; so equal bytes can be told apart. A byte is not accepted when the write of its record
    failed after some of it had reached the file.
   */
  datatype Cell = Cell(pos: nat, start: nat, byte: char, accepted: bool)

  /** The bytes of one record from position `from` on. */
  function Cells(bytes: string, from: nat, accepted: bool): (r: seq<Cell>)
    ensures |r| == |bytes|
    ensures forall i :: 0 <= i < |r| ==> r[i] == Cell(from + i, from, bytes[i], accepted)
  {
    seq(|bytes|, i requires 0 <= i < |bytes| => Cell(from + i, from, bytes[i], accepted))
  }

  /** The accepted bytes of a file. */
  function Count(file: seq<Cell>): (n: nat)
    ensures n <= |file|
  {
    if file == [] then 0 else Count(file[..|file| - 1]) + if file[|file| - 1].accepted then 1 else 0
  }

  lemma {:induction false} CountAppend(a: seq<Cell>, b: seq<Cell>)
    ensures Count(a + b) == Count(a) + Count(b)
  {
    if b == [] {
      assert a + b == a;
    } else {
      var n := |b| - 1;
      assert (a + b)[..|a + b| - 1] == a + b[..n];
      CountAppend(a, b[..n]);
    }
  }

  predicate AllAccepted(file: seq<Cell>, accepted: bool) {
    forall i :: 0 <= i < |file| ==> file[i].accepted == accepted
  }

  lemma {:induction false} CountAccepted(file: seq<Cell>)
    requires AllAccepted(file, true)
    ensures Count(file) == |file|
  {
    if file != [] { CountAccepted(file[..|file| - 1]); }
  }

  lemma {:induction false} CountNone(file: seq<Cell>)
    ensures Count(file) == 0 <==> AllAccepted(file, false)
  {
    if file != [] {
      var n := |file| - 1;
      CountNone(file[..n]);
      assert AllAccepted(file, false) <==> AllAccepted(file[..n], false) && !file[n].accepted;
    }
  }

  /** The accepted bytes are all of one record. */
  predicate OneRecord(file: seq<Cell>) {
    forall x, y :: x in file && y in file && x.accepted && y.accepted ==> x.start == y.start
  }

  /** The file begins where a record begins. */
  predicate Begins(file: seq<Cell>) {
    file != [] ==> file[0].pos == file[0].start
  }

  /** Number 0 is the active file, number `i` the i-th backup. */
  type Files = map<nat, seq<Cell>>

  function Content(disk: Files, i: nat): (r: seq<Cell>) {
    if i in disk then disk[i] else []
  }

  /** Everything that can still be read, from the oldest retained backup to the active file. */
  function Chain(disk: Files, n: nat): (r: seq<Cell>) {
    if n == 0 then Content(disk, 0) else Content(disk, n) + Chain(disk, n - 1)
  }

  predicate IsSuffix(tail: seq<Cell>, all: seq<Cell>) {
    |tail| <= |all| && all[|all| - |tail|..] == tail
  }

  lemma {:induction false} ChainAgrees(a: Files, b: Files, n: nat)
    requires forall i :: 0 <= i <= n ==> Content(a, i) == Content(b, i)
    ensures Chain(a, n) == Chain(b, n)
  {
    if n > 0 { ChainAgrees(a, b, n - 1); }
  }

  /** Moving a file into the empty place right behind it does not change what can be read. */
  lemma {:induction false} ShiftKeepsChain(disk: Files, i: nat, n: nat)
    requires i in disk && i + 1 !in disk && i + 1 <= n
    ensures Chain(disk[i + 1 := disk[i]] - {i}, n) == Chain(disk, n)
  {
    var after := disk[i + 1 := disk[i]] - {i};
    if n == i + 1 {
      if i > 0 { ChainAgrees(after, disk, i - 1); }
      assert Chain(disk, n) == [] + Chain(disk, i);
      assert Chain(after, n) == disk[i] + Chain(after, i);
    } else {
      ShiftKeepsChain(disk, i, n - 1);
      assert Content(after, n) == Content(disk, n);
    }
  }

  /** Dropping the oldest backup leaves a suffix. */
  lemma DropOldest(disk: Files, n: nat)
    ensures IsSuffix(Chain(disk - {n}, n), Chain(disk, n))
  {
    if n > 0 { ChainAgrees(disk - {n}, disk, n - 1); }
  }

  lemma {:induction false} ChainAppend(disk: Files, n: nat, x: seq<Cell>)
    ensures Chain(disk[0 := Content(disk, 0) + x], n) == Chain(disk, n) + x
  {
    var after := disk[0 := Content(disk, 0) + x];
    if n > 0 {
      ChainAppend(disk, n - 1, x);
      assert Content(after, n) == Content(disk, n);
      assert Content(disk, n) + (Chain(disk, n - 1) + x) == Chain(disk, n) + x;
    }
  }

  /** One complete rotation of the files 0 to `n`: each moves up by one, the oldest goes, higher numbers stay. */
  ghost predicate Shifted(before: Files, after: Files, n: nat) {
    && 0 !in after
    && (forall i :: 0 <= i < n ==> (i + 1 in after <==> i in before) && Content(after, i + 1) == Content(before, i))
    && (forall i :: n < i ==> (i in after <==> i in before) && Content(after, i) == Content(before, i))
  }

  /** The files above `index` have moved up, the others have not. */
  ghost predicate PartlyShifted(before: Files, after: Files, index: nat, n: nat) {
    && (forall i :: 0 <= i <= index ==> (i in after <==> i in before) && Content(after, i) == Content(before, i))
    && (forall i :: index < i < n ==> (i + 1 in after <==> i in before) && Content(after, i + 1) == Content(before, i))
    && (forall i :: n < i ==> (i in after <==> i in before) && Content(after, i) == Content(before, i))
  }

  function MovedUp(files: Files, index: nat): (r: Files) {
    if index in files then files[index + 1 := files[index]] - {index} else files
  }

  lemma ShiftedNone(before: Files)
    ensures 0 !in before - {0}
    ensures Shifted(before, before - {0}, 0)
  {
  }

  lemma ShiftStarts(before: Files, n: nat)
    requires n > 0
    ensures PartlyShifted(before, before - {n}, n - 1, n)
  {
  }

  lemma ShiftStep(before: Files, files: Files, index: nat, n: nat)
    requires 0 < index < n && PartlyShifted(before, files, index, n) && index + 1 !in files
    ensures PartlyShifted(before, MovedUp(files, index), index - 1, n) && index !in MovedUp(files, index)
  {
  }

  lemma ShiftEnds(before: Files, files: Files, n: nat)
    requires n > 0 && PartlyShifted(before, files, 0, n) && 1 !in files
    ensures 0 !in MovedUp(files, 0) && Shifted(before, MovedUp(files, 0), n)
  {
  }

  // ---------- what became of every byte ----------

  ghost predicate Numbered(stream: seq<Cell>) {
    forall i :: 0 <= i < |stream| ==> stream[i].pos == i
  }

  ghost predicate Increasing(cells: seq<Cell>) {
    forall i, j :: 0 <= i < j < |cells| ==> cells[i].pos < cells[j].pos
  }

  predicate From(x: Cell, stream: seq<Cell>) {
    x.pos < |stream| && stream[x.pos] == x
  }

  /** `x` comes before everything that is retained. */
  predicate Older(x: Cell, retained: seq<Cell>) {
    retained != [] ==> x.pos < retained[0].pos
  }

  /** Each byte is retained, in order, or was lost by a failing close, or is older than all that is retained. */
  ghost predicate Accounted(retained: seq<Cell>, stream: seq<Cell>, lost: set<Cell>) {
    && Numbered(stream)
    && Increasing(retained) && (forall x :: x in retained ==> From(x, stream))
    && (forall x :: x in lost ==> From(x, stream) && x !in retained)
    && (forall x :: x in stream ==> x in retained || x in lost || Older(x, retained))
  }

  lemma AccountedDrop(all: seq<Cell>, tail: seq<Cell>, stream: seq<Cell>, lost: set<Cell>)
    requires Accounted(all, stream, lost) && IsSuffix(tail, all)
    ensures Accounted(tail, stream, lost)
  {
    var k := |all| - |tail|;
    assert forall i :: 0 <= i < |tail| ==> tail[i] == all[k + i];
    assert forall x :: x in tail ==> x in all;
    forall x | x in all
      ensures x in tail || Older(x, tail)
    {
      var i :| 0 <= i < |all| && all[i] == x;
      if i >= k { assert tail[i - k] == x; }
    }
  }

  lemma AccountedAppend(retained: seq<Cell>, more: seq<Cell>, stream: seq<Cell>, lost: set<Cell>)
    requires Accounted(retained, stream, lost)
    requires forall i :: 0 <= i < |more| ==> more[i].pos == |stream| + i
    ensures Accounted(retained + more, stream + more, lost)
  {
    forall x | x in retained + more
      ensures From(x, stream + more)
    {
      if x in retained {
        assert From(x, stream);
      } else {
        var i :| 0 <= i < |more| && more[i] == x;
        assert (stream + more)[x.pos] == x;
      }
    }
    forall i | 0 <= i < |retained|
      ensures retained[i].pos < |stream|
    {
      assert retained[i] in retained;
    }
    assert forall x :: x in stream ==> From(x, stream);
    assert forall x :: x in retained || x in lost ==> From(x, stream);
  }

  lemma SplitIncreasing(kept: seq<Cell>, gone: seq<Cell>)
    requires Increasing(kept + gone)
    ensures Increasing(kept)
    ensures forall x :: x in gone ==> x !in kept
  {
    var all := kept + gone;
    assert forall i :: 0 <= i < |kept| ==> all[i] == kept[i];
    assert forall j :: 0 <= j < |gone| ==> all[|kept| + j] == gone[j];
  }

  lemma AccountedLose(kept: seq<Cell>, gone: seq<Cell>, stream: seq<Cell>, lost: set<Cell>)
    requires Accounted(kept + gone, stream, lost)
    ensures Accounted(kept, stream, lost + set x | x in gone)
  {
    SplitIncreasing(kept, gone);
    assert forall x :: x in kept + gone <==> x in kept || x in gone;
    if kept != [] { assert (kept + gone)[0] == kept[0]; }
    hide Increasing, From;
  }

  /** What is retained is a suffix of the stream if and only if it holds nothing from before a lost byte. */
  lemma SuffixIffNothingBeforeLoss(retained: seq<Cell>, stream: seq<Cell>, lost: set<Cell>)
    requires Accounted(retained, stream, lost)
    ensures IsSuffix(retained, stream) <==> forall x :: x in lost ==> Older(x, retained)
  {
    if forall x :: x in lost ==> Older(x, retained) {
      UpwardClosed(retained, stream, lost);
    }
    if IsSuffix(retained, stream) {
      var k := |stream| - |retained|;
      forall x | x in lost
        ensures Older(x, retained)
      {
        assert From(x, stream);
        if k < |stream| { assert retained[0] == stream[k]; }
        if x.pos >= k { InSuffix(retained, stream, x.pos); }
      }
    }
  }

  lemma InSuffix(tail: seq<Cell>, all: seq<Cell>, p: int)
    requires IsSuffix(tail, all) && |all| - |tail| <= p < |all|
    ensures all[p] in tail
  {
    assert tail[p - (|all| - |tail|)] == all[p];
  }

  lemma UpwardClosed(retained: seq<Cell>, stream: seq<Cell>, lost: set<Cell>)
    requires Accounted(retained, stream, lost) && forall x :: x in lost ==> Older(x, retained)
    ensures IsSuffix(retained, stream)
  {
    if retained != [] {
      var m, n := retained[0].pos, |retained|;
      forall p | m <= p < |stream|
        ensures stream[p] in retained
      {
        assert stream[p] in stream;
      }
      for k := 1 to n
        invariant forall i :: 0 <= i < k ==> retained[i].pos == m + i
      {
        assert retained[k] in retained && From(retained[k], stream) && retained[k - 1].pos < retained[k].pos;
        NoGap(retained, k, stream[m + k]);
      }
      assert From(retained[0], stream);
      assert stream[|stream| - 1] in retained;
      var j :| 0 <= j < n && retained[j] == stream[|stream| - 1];
      assert retained[n - 1] in retained && From(retained[n - 1], stream);
      forall i | 0 <= i < n
        ensures retained[i] == stream[m + i]
      {
        assert retained[i] in retained;
      }
    }
  }

  /** In an increasing sequence a member with the next position comes next. */
  lemma NoGap(cells: seq<Cell>, k: nat, x: Cell)
    requires Increasing(cells) && 0 < k < |cells| && x in cells && x.pos == cells[k - 1].pos + 1
    ensures cells[k].pos == x.pos
  {
    var j :| 0 <= j < |cells| && cells[j] == x;
    assert cells[k - 1].pos < cells[k].pos;
  }

  /**
    A close that writes only the first `k` bytes of the buffer leaves a hole, whatever is written later: what is readable
    is a suffix of the stream if and only if the whole buffer was written, or nothing before it is still there.
   */
  lemma HoleAfterFailedClose(files: seq<Cell>, buffer: seq<Cell>, k: nat, more: seq<Cell>, stream: seq<Cell>)
    requires Accounted(files + buffer, stream, {}) && k <= |buffer|
    requires forall i :: 0 <= i < |more| ==> more[i].pos == |stream| + i
    ensures IsSuffix(files + buffer[..k] + more, stream + more) <==> k == |buffer| || files + buffer[..k] == []
  {
    hide Accounted;
    var kept, gone := files + buffer[..k], buffer[k..];
    assert files + buffer == kept + gone;
    AccountedLose(kept, gone, stream, {});
    var lost := {} + set x | x in gone;
    AccountedAppend(kept, more, stream, lost);
    SuffixIffNothingBeforeLoss(kept + more, stream + more, lost);
    GoneAreLater(kept, gone, stream);
    if gone != [] { assert gone[0] in lost; }
  }

  lemma GoneAreLater(kept: seq<Cell>, gone: seq<Cell>, stream: seq<Cell>)
    requires Accounted(kept + gone, stream, {})
    ensures forall x :: x in gone ==> x.pos < |stream| && (kept != [] ==> kept[0].pos < x.pos)
  {
    var all := kept + gone;
    forall x | x in gone
      ensures x.pos < |stream| && (kept != [] ==> kept[0].pos < x.pos)
    {
      assert x in all;
      var j :| 0 <= j < |gone| && gone[j] == x;
      assert all[|kept| + j] == x;
      if kept != [] { assert all[0] == kept[0]; }
    }
  }

  /** When every file begins at a record, so does all that can be read. */
  lemma {:induction false} ChainBegins(disk: Files, n: nat)
    requires forall i :: i in disk ==> Begins(disk[i])
    ensures Begins(Chain(disk, n))
  {
    if n > 0 { ChainBegins(disk, n - 1); }
  }

  // ---------- files as they are found ----------

  function Text(found: map<nat, string>, i: nat): (r: string) {
    if i in found then found[i] else ""
  }

  /** The bytes in front of file `i`, in all older files. */
  function Offset(found: map<nat, string>, n: nat, i: nat): (r: nat)
    decreases n - i
  {
    if i >= n then 0 else Offset(found, n, i + 1) + |Text(found, i + 1)|
  }

  /** The files of an earlier process, each like one record, with their bytes numbered as they can be read. */
  function Labelled(found: map<nat, string>, n: nat): (r: Files) {
    map i | i in found :: Cells(found[i], Offset(found, n, i), true)
  }

  lemma {:induction false} LabelledInOrder(found: map<nat, string>, n: nat, k: nat)
    requires k <= n
    ensures forall j :: 0 <= j < |Chain(Labelled(found, n), k)| ==>
              Chain(Labelled(found, n), k)[j].pos == Offset(found, n, k) + j
  {
    if k > 0 {
      LabelledInOrder(found, n, k - 1);
      assert |Content(Labelled(found, n), k)| == |Text(found, k)|;
    }
  }

  /** The part `part` of a record came behind the stream and the active file. */
  predicate Torn(bytes: string, part: string, before: seq<Cell>, after: seq<Cell>, was: seq<Cell>, active: seq<Cell>) {
    var cells := Cells(part, |before|, false);
    part <= bytes && after == before + cells && active == was + cells
  }

  /** A write that failed left some part of its record, possibly nothing. */
  ghost predicate TornAfter(bytes: string, before: seq<Cell>, after: seq<Cell>, was: seq<Cell>, active: seq<Cell>) {
    exists part :: Torn(bytes, part, before, after, was, active)
  }

  class LogWriter {
    const maxBytes: nat
    const backupCount: nat
    /** Contents of the files that exist. */
    var disk: Files
    /** Whether the active file is open; it is closed while rotating. */
    var open: bool
    /** Accepted bytes that were not passed on to the active file yet. */
    var buffer: seq<Cell>
    var currentLen: nat
    /** All bytes that were in the files at the start, were accepted since, or reached a file. */
    var stream: seq<Cell>
    /** Bytes of a buffer that a failing close did not write. */
    ghost var lost: set<Cell>
    /** The contents of the files at the start. */
    ghost const initial: Files

    /** Within the limit, or a single record, or as it was found. */
    ghost predicate FileOk(file: seq<Cell>) {
      Fits(file) || exists i :: i in initial && initial[i] == file
    }

    ghost predicate Fits(file: seq<Cell>) {
      Saturated(Count(file)) <= maxBytes || OneRecord(file)
    }

    ghost predicate WellKept(files: Files) {
      forall i :: i in files ==> FileOk(files[i]) && Begins(files[i])
    }

    /** What is in the files or still in the buffer, oldest first. */
    function Retained(): (r: seq<Cell>)
      reads this
    {
      Chain(disk, backupCount) + buffer
    }

    /** The active file with what is still to be written to it. */
    function Active(): (r: seq<Cell>)
      reads this
    {
      Content(disk, 0) + buffer
    }

    ghost predicate Valid()
      reads this
    {
      && maxBytes <= U64_MAX
      && Accounted(Retained(), stream, lost)
      && WellKept(disk)
      && (!open ==> buffer == [])
      && (open ==> 0 in disk && currentLen == Saturated(Count(Active())) && Fits(Active()) && Begins(Active()))
    }

    /** What was found is one stream of bytes, none of them lost. */
    constructor (maxBytes: nat, backupCount: nat, found: map<nat, string>)
      requires maxBytes <= U64_MAX
      ensures Valid() && !open && disk == Labelled(found, backupCount) == initial
      ensures stream == Chain(disk, backupCount) && lost == {} && currentLen == 0
      ensures disk.Keys == found.Keys
      ensures forall i :: i in found ==>
                && |disk[i]| == |found[i]|
                && forall k :: 0 <= k < |found[i]| ==> disk[i][k].byte == found[i][k] && disk[i][k].accepted
      ensures this.maxBytes == maxBytes && this.backupCount == backupCount
    {
      var files := Labelled(found, backupCount);
      LabelledInOrder(found, backupCount, backupCount);
      this.maxBytes, this.backupCount, this.disk, this.open, this.currentLen := maxBytes, backupCount, files, false, 0;
      buffer, stream, lost, initial := [], Chain(files, backupCount), {}, files;
      new;
      assert Retained() == stream;
    }

    /**
      What can be read, with what is still buffered, begins where a record begins. It is a suffix of the stream if and
      only if nothing is left from before a byte that a failing close lost.
     */
    lemma ReadableIsSuffix()
      requires Valid()
      ensures IsSuffix(Retained(), stream) <==> forall x :: x in lost ==> Older(x, Retained())
      ensures Begins(Retained())
    {
      SuffixIffNothingBeforeLoss(Retained(), stream, lost);
      ChainAppend(disk, backupCount, buffer);
      if open {
        ChainBegins(disk[0 := Active()], backupCount);
      } else {
        ChainBegins(disk, backupCount);
        assert Retained() == Chain(disk, backupCount);
      }
    }

    // ---------- file operations; each of them can fail ----------

    /** Remove the oldest file there can be. */
    method RemoveOldest() returns (ok: bool)
      requires backupCount in disk
      modifies this`disk
      ensures disk == if ok then old(disk) - {backupCount} else old(disk)
      ensures old(WellKept(disk)) ==> WellKept(disk)
      ensures IsSuffix(Chain(disk, backupCount), old(Chain(disk, backupCount)))
    {
      ok := *;
      DropOldest(disk, backupCount);
      if ok { disk := disk - {backupCount}; }
    }

    /** Rename a file to the next number, which must be free: a rename over an existing file cannot be requested. */
    method RenameUp(source: nat) returns (ok: bool)
      requires source in disk && source + 1 !in disk && source < backupCount
      modifies this`disk
      ensures disk == if ok then old(disk)[source + 1 := old(disk)[source]] - {source} else old(disk)
      ensures old(WellKept(disk)) ==> WellKept(disk)
      ensures Chain(disk, backupCount) == old(Chain(disk, backupCount))
    {
      ok := *;
      ShiftKeepsChain(disk, source, backupCount);
      if ok { disk := disk[source + 1 := disk[source]] - {source}; }
    }

    /**
      Shift the backups and move the active file to backup number one. Whether it succeeds or stops anywhere, what can
      be read afterwards is a suffix of what could be read before.
     */
    method RotateFiles() returns (ok: bool)
      requires WellKept(disk)
      modifies this`disk
      ensures WellKept(disk)
      ensures IsSuffix(Chain(disk, backupCount), old(Chain(disk, backupCount)))
      ensures ok ==> 0 !in disk && Shifted(old(disk), disk, backupCount)
    {
      hide WellKept, Chain, PartlyShifted, Shifted;
      var n := backupCount;
      ok := true;
      ghost var before := disk;
      if n in disk {
        ok := RemoveOldest();
      } else {
        assert before - {n} == before;
      }
      if n == 0 {
        ShiftedNone(before);
        return;
      }
      if !ok { return; }
      ShiftStarts(before, n);
      var index := n - 1;
      while index > 0
        invariant 0 <= index < n && index + 1 !in disk
        invariant WellKept(disk) && IsSuffix(Chain(disk, n), old(Chain(disk, n)))
        invariant PartlyShifted(before, disk, index, n)
      {
        ShiftStep(before, disk, index, n);
        if index in disk {
          ok := RenameUp(index);
          if !ok { return; }
        }
        index := index - 1;
      }
      ShiftEnds(before, disk, n);
      if 0 in disk {
        ok := RenameUp(0);
      }
    }

    /** Open the active file for appending, creating it when absent. */
    method OpenActive() returns (ok: bool)
      modifies this`disk
      ensures disk == if ok then old(disk)[0 := Content(old(disk), 0)] else old(disk)
      ensures old(WellKept(disk)) ==> WellKept(disk)
      ensures Chain(disk, backupCount) == old(Chain(disk, backupCount))
    {
      ok := *;
      ChainAppend(disk, backupCount, []);
      assert Content(disk, 0) + [] == Content(disk, 0);
      if ok { disk := disk[0 := Content(disk, 0)]; }
    }

    /** Pass the first `k` buffered bytes on to the active file. */
    method PassOn(k: nat)
      requires Valid() && open && k <= |buffer|
      modifies this`disk, this`buffer
      ensures Valid() && disk == old(disk)[0 := old(disk)[0] + old(buffer)[..k]] && buffer == old(buffer)[k..]
      ensures Active() == old(Active()) && Retained() == old(Retained())
    {
      hide Accounted, Count, OneRecord, Chain;
      ChainAppend(disk, backupCount, buffer[..k]);
      assert buffer == buffer[..k] + buffer[k..];
      assert disk[0] + buffer[..k] + buffer[k..] == Active();
      PrefixFits(disk[0] + buffer[..k], buffer[k..]);
      assert Chain(disk, backupCount) + buffer[..k] + buffer[k..] == Retained();
      disk, buffer := disk[0 := disk[0] + buffer[..k]], buffer[k..];
    }

    /** A file is no fuller than the file with what is still to come. */
    lemma PrefixFits(file: seq<Cell>, more: seq<Cell>)
      requires Fits(file + more) && Begins(file + more)
      ensures Fits(file) && Begins(file)
    {
      CountAppend(file, more);
      assert forall x :: x in file ==> x in file + more;
      if file != [] { assert (file + more)[0] == file[0]; }
    }

    /** Write the buffer out; a failure keeps the rest of it for later. */
    method FlushBuffer() returns (ok: bool)
      requires Valid() && open
      modifies this`disk, this`buffer
      ensures Valid() && Active() == old(Active()) && Retained() == old(Retained())
      ensures 0 in disk && disk - {0} == old(disk) - {0}
      ensures ok <==> buffer == []
    {
      var k: int := *;
      if !(0 <= k <= |buffer|) { k := |buffer|; }
      PassOn(k);
      ok := buffer == [];
    }

    /**
      Close the active file. It writes the buffer out; when that fails some more of it may still be written, and the rest
      is lost with the file handle.
     */
    method Close() returns (ok: bool, ghost k: nat)
      requires Valid() && open
      modifies this`disk, this`buffer, this`open, this`lost
      ensures Valid() && !open && k <= |old(buffer)| && (ok ==> k == |old(buffer)|)
      ensures disk == old(disk)[0 := old(disk)[0] + old(buffer)[..k]]
      ensures lost == old(lost) + set x | x in old(buffer)[k..]
    {
      hide Accounted, Count, OneRecord, Chain, WellKept;
      ok := *;
      var written: int := *;
      if ok || !(0 <= written <= |buffer|) { written := |buffer|; }
      k := written;
      PassOn(written);
      AccountedLose(Chain(disk, backupCount), buffer, stream, lost);
      assert Chain(disk, backupCount) + [] == Chain(disk, backupCount);
      open, lost, buffer := false, lost + (set x | x in buffer), [];
    }

    // ---------- the writer ----------

    /** Start writing: an active file that is already full is rotated away first. */
    method Open() returns (ok: bool)
      requires Valid() && !open && forall i, x :: i in disk && x in disk[i] ==> x.accepted
      modifies this`disk, this`open, this`currentLen
      ensures Valid() && open == ok
      ensures ok && !(0 in old(disk) && |old(disk)[0]| >= maxBytes) ==> disk == old(disk)[0 := Content(old(disk), 0)]
      ensures ok && 0 in old(disk) && |old(disk)[0]| >= maxBytes ==> Rotated(old(disk), disk) && disk[0] == []
      ensures ok && |disk[0]| <= 0xFFFF_FFFF_FFFF_FFFF ==> currentLen == |disk[0]|
    {
      hide Accounted, WellKept, Shifted, OneRecord, Chain;
      CountNone([]);
      if 0 in disk && |disk[0]| >= maxBytes {
        ok := RotateDropping();
        if !ok { return; }
        ghost var shifted := disk;
        ok := OpenActive();
        assert ok ==> disk == shifted[0 := []] && disk - {0} == shifted;
      } else {
        ok := OpenActive();
      }
      if ok {
        CountAccepted(disk[0]);
        BeginsAt(0);
        open, currentLen := true, Saturated(|disk[0]|);
        assert Active() == disk[0];
      }
    }

    /** All files moved up by one and a new active file was begun. */
    ghost predicate Rotated(before: Files, after: Files) {
      Shifted(before, after - {0}, backupCount)
    }

    lemma BeginsAt(i: nat)
      requires WellKept(disk) && i in disk
      ensures Begins(disk[i]) && FileOk(disk[i])
    {
    }

    /** Rotate while nothing is buffered; the oldest bytes may go. */
    method RotateDropping() returns (ok: bool)
      requires Valid() && !open
      modifies this`disk
      ensures Valid()
      ensures ok ==> 0 !in disk && Shifted(old(disk), disk, backupCount)
    {
      hide Accounted, Shifted, IsSuffix, Chain, WellKept;
      ghost var before := Retained();
      assert before == Chain(disk, backupCount);
      ok := RotateFiles();
      AccountedDrop(before, Chain(disk, backupCount), stream, lost);
      assert Retained() == Chain(disk, backupCount);
    }

    /** The files once everything buffered is written. */
    ghost function Flushed(): (r: Files)
      reads this
    {
      if open then disk[0 := Active()] else disk
    }

    /** Close, rotate, open a fresh active file. */
    method Rotate() returns (ok: bool)
      requires Valid()
      modifies this`disk, this`buffer, this`open, this`lost, this`currentLen
      ensures Valid() && open == ok
      ensures ok ==> currentLen == 0 && disk[0] == [] && buffer == [] && Rotated(old(Flushed()), disk)
      ensures !ok ==> currentLen == old(currentLen)
      ensures lost != old(lost) ==> !ok && old(open) && old(buffer) != []
    {
      hide Accounted, WellKept, Shifted, OneRecord, Chain, Fits;
      CountNone([]);
      if open {
        ghost var k, rest := 0, buffer;
        ok, k := Close();
        assert k == |rest| ==> rest[k..] == [] && rest[..k] == rest;
        if !ok { return; }
      }
      ghost var closed := disk;
      ok := RotateDropping();
      if !ok { return; }
      ghost var shifted := disk;
      ok := OpenActive();
      if ok {
        open, currentLen := true, 0;
        assert Active() == [] && disk - {0} == shifted;
        EmptyFits();
      }
    }

    lemma EmptyFits()
      ensures Fits([])
    {
    }

    predicate Full(incoming: nat)
      reads this
    {
      currentLen > 0 && SaturatingAdd(currentLen, incoming) > maxBytes
    }

    /** A record of `incoming` bytes does not fit behind what the active file has, unless it has nothing. */
    lemma FullMeans(incoming: nat)
      requires Valid() && open && maxBytes < 0xFFFF_FFFF_FFFF_FFFF
      ensures Full(incoming) <==> Count(Active()) > 0 && Count(Active()) + incoming > maxBytes
    {
    }

    /**
      Append one record, rotating first when it would not fit. A record that was accepted is the newest one; a write that
      fails adds at most a part of it to the active file. Bytes are lost only by a rotation that cannot close the file.
     */
    method Write(bytes: string) returns (ok: bool)
      requires Valid()
      modifies this`disk, this`buffer, this`open, this`lost, this`currentLen, this`stream
      ensures Valid()
      ensures ok ==> open && stream == old(stream) + Cells(bytes, |old(stream)|, true) && lost == old(lost)
      ensures ok && !old(Full(|bytes|)) ==> Active() == old(Active()) + Cells(bytes, |old(stream)|, true)
      ensures !old(Full(|bytes|)) ==> disk - {0} == old(disk) - {0}
      ensures ok && old(Full(|bytes|)) ==> Active() == Cells(bytes, |old(stream)|, true) && Rotated(old(Flushed()), disk)
      ensures !ok && old(Full(|bytes|)) ==>
                (stream == old(stream)
                 || (Rotated(old(Flushed()), disk) && TornAfter(bytes, old(stream), stream, [], Active())))
      ensures !ok && !old(Full(|bytes|)) ==> TornAfter(bytes, old(stream), stream, old(Active()), Active())
      ensures lost != old(lost) ==> !ok && old(open) && old(Full(|bytes|)) && old(buffer) != []
      ensures !old(open) && !old(Full(|bytes|)) ==> !ok && disk == old(disk)
      ensures ok ==>
                var flushed := old(Full(|bytes|)) || |old(buffer)| + |bytes| > 8192;
                buffer == if |bytes| >= 8192 then []
                          else (if flushed then [] else old(buffer)) + Cells(bytes, |old(stream)|, true)
      ensures ok && !old(Full(|bytes|)) && |old(buffer)| + |bytes| <= 8192 && |bytes| < 8192 ==> disk == old(disk)
    {
      hide Accounted, WellKept, Shifted, OneRecord, Chain, Fits, Count, Begins;
      ok := true;
      if Full(|bytes|) {
        ok := Rotate();
      }
      if !ok || !open {
        NothingTorn(bytes, stream, Active());
        return false;
      }
      ok := Append(bytes);
    }

    /** Write out what is buffered. */
    method Flush() returns (ok: bool)
      requires Valid()
      modifies this`disk, this`buffer
      ensures Valid() && Active() == old(Active()) && Retained() == old(Retained())
      ensures ok <==> open && buffer == []
      ensures ok ==> disk == old(Flushed())
    {
      hide Accounted, WellKept, OneRecord, Chain, Fits, Count, Begins;
      if !open {
        return false;
      }
      ok := FlushBuffer();
      if ok {
        ghost var whole := old(Active());
        assert disk[0] + [] == disk[0] == whole;
        assert disk == (disk - {0})[0 := whole] && old(disk)[0 := whole] == (old(disk) - {0})[0 := whole];
      }
    }

    /** Put the bytes of a record behind the others, in the buffer if they fit there. */
    method Append(bytes: string) returns (ok: bool)
      requires Valid() && open && !Full(|bytes|)
      modifies this`disk, this`buffer, this`currentLen, this`stream
      ensures Valid() && disk - {0} == old(disk) - {0}
      ensures ok ==> stream == old(stream) + Cells(bytes, |old(stream)|, true)
      ensures ok ==> Active() == old(Active()) + Cells(bytes, |old(stream)|, true)
      ensures !ok ==> TornAfter(bytes, old(stream), stream, old(Active()), Active())
      ensures ok ==>
                buffer == if |bytes| >= 8192 then []
                          else (if |old(buffer)| + |bytes| > 8192 then [] else old(buffer))
                               + Cells(bytes, |old(stream)|, true)
      ensures ok && |old(buffer)| + |bytes| <= 8192 && |bytes| < 8192 ==> disk == old(disk)
    {
      hide Accounted, WellKept, OneRecord, Chain, Fits, Count, Begins;
      if |buffer| + |bytes| > CAPACITY {
        ok := FlushBuffer();
        if !ok {
          NothingTorn(bytes, stream, Active());
          return;
        }
      }
      if |bytes| >= CAPACITY {
        ok := WriteThrough(bytes);
      } else {
        Keep(bytes);
        ok := true;
      }
    }

    /** A record as large as the buffer goes straight to the file; a failure can leave a part of it there. */
    method WriteThrough(bytes: string) returns (ok: bool)
      requires Valid() && open && !Full(|bytes|) && buffer == []
      modifies this`disk, this`currentLen, this`stream
      ensures Valid() && disk - {0} == old(disk) - {0}
      ensures ok ==> stream == old(stream) + Cells(bytes, |old(stream)|, true)
      ensures ok ==> Active() == old(Active()) + Cells(bytes, |old(stream)|, true)
      ensures !ok ==> TornAfter(bytes, old(stream), stream, old(Active()), Active())
    {
      hide Accounted, OneRecord, Chain, Fits, Count, Begins, WellKept, Content;
      var k: int := *;
      if !(0 <= k <= |bytes|) { k := |bytes|; }
      ok := k == |bytes|;
      var part := bytes[..k];
      assert part <= bytes && (ok ==> part == bytes);
      ToFile(part, ok);
      assert !ok ==> Torn(bytes, part, old(stream), stream, old(Active()), Active());
    }

    /** Bytes that reach the active file; only those of a whole record are accepted. */
    method ToFile(part: string, whole: bool)
      requires Valid() && open && buffer == [] && (whole ==> !Full(|part|))
      modifies this`disk, this`currentLen, this`stream
      ensures Valid() && disk - {0} == old(disk) - {0}
      ensures stream == old(stream) + Cells(part, |old(stream)|, whole)
      ensures Active() == old(Active()) + Cells(part, |old(stream)|, whole)
    {
      hide Accounted, OneRecord, Chain, Fits, Count, Begins, Saturated;
      var cells := Cells(part, |stream|, whole);
      MoreFits(Active(), cells, part, whole);
      AccountedAppend(Retained(), cells, stream, lost);
      ChainAppend(disk, backupCount, cells);
      assert Retained() == Chain(disk, backupCount) && Active() == disk[0];
      disk, stream := disk[0 := disk[0] + cells], stream + cells;
      assert Retained() == Chain(disk, backupCount) && Active() == disk[0];
      if whole { currentLen := SaturatingAdd(currentLen, |part|); }
    }

    /** Keep a record in the buffer. */
    method Keep(bytes: string)
      requires Valid() && open && !Full(|bytes|)
      modifies this`buffer, this`currentLen, this`stream
      ensures Valid()
      ensures stream == old(stream) + Cells(bytes, |old(stream)|, true)
      ensures Active() == old(Active()) + Cells(bytes, |old(stream)|, true)
      ensures buffer == old(buffer) + Cells(bytes, |old(stream)|, true)
    {
      hide Accounted, OneRecord, Chain, Fits, Count, Begins, WellKept, Content, Saturated;
      var cells := Cells(bytes, |stream|, true);
      MoreFits(Active(), cells, bytes, true);
      AccountedAppend(Retained(), cells, stream, lost);
      ghost var active, retained := Active(), Retained();
      buffer, stream := buffer + cells, stream + cells;
      assert Active() == active + cells && Retained() == retained + cells;
      currentLen := SaturatingAdd(currentLen, |bytes|);
    }

    /** A record that may be added, or a part of one that failed, leaves the active file as full as it may be. */
    lemma MoreFits(active: seq<Cell>, cells: seq<Cell>, bytes: string, ok: bool)
      requires maxBytes <= U64_MAX && Fits(active) && Begins(active) && currentLen == Saturated(Count(active))
      requires ok ==> !Full(|bytes|)
      requires (forall x :: x in cells ==> x.accepted == ok) && (ok ==> |cells| == |bytes|)
      requires forall i :: 0 <= i < |cells| ==> cells[i].start == cells[0].pos
      ensures Fits(active + cells) && Begins(active + cells)
      ensures Saturated(Count(active + cells)) == if ok then SaturatingAdd(currentLen, |bytes|) else currentLen
    {
      CountAppend(active, cells);
      if ok { CountAccepted(cells); } else { CountNone(cells); }
      CountNone(active);
      assert active == [] ==> active + cells == cells;
      assert active != [] ==> (active + cells)[0] == active[0];
      assert forall x :: x in active + cells && x.accepted ==> (x in active && x.accepted) || (x in cells && ok);
      assert forall x :: x in cells ==> x.start == cells[0].pos;
    }

    lemma NothingTorn(bytes: string, stream: seq<Cell>, active: seq<Cell>)
      ensures TornAfter(bytes, stream, stream, active, active)
    {
      assert stream == stream + Cells("", |stream|, false) && active == active + Cells("", |stream|, false);
      assert Torn(bytes, "", stream, stream, active, active);
    }
  }
}

/** The rotating file sink of include/spdlog/sinks/rotating_file_sink-inl.h over a file system that maps names to
    contents. Opening, renaming, removing and writing may fail; the environment says when. */
module RotatingFiles {
  import opened FileNames
  import opened SeqFacts

  type Bytes = string
  type FileSystem = map<string, Bytes>

  // ----- what a rotation means -----

  datatype Slot = Absent | Holds(bytes: Bytes)

  /** The file that is `i` rotations old. */
  ghost function At(fs: FileSystem, base: string, i: nat): Slot {
    var name := CalcFilename(base, i);
    if name in fs then Holds(fs[name]) else Absent
  }

  ghost function Text(slot: Slot): Bytes {
    if slot.Absent? then "" else slot.bytes
  }

  /** One turn of the rotation loop, all going well: file i-1, if there is one, takes the place of file i. */
  function MoveUp(fs: FileSystem, base: string, i: nat): FileSystem
    requires i > 0
  {
    var src, target := CalcFilename(base, i - 1), CalcFilename(base, i);
    if src in fs then fs[target := fs[src]] - {src} else fs
  }

  /** The rotation loop from `i` down to 1. */
  function MoveAllUp(fs: FileSystem, base: string, i: nat): FileSystem
    decreases i
  {
    if i == 0 then fs else MoveAllUp(MoveUp(fs, base, i), base, i - 1)
  }

  /** A whole rotation: everything moves up and the current file starts over. */
  function Rotated(fs: FileSystem, base: string, maxFiles: nat): FileSystem {
    MoveAllUp(fs, base, maxFiles)[CalcFilename(base, 0) := ""]
  }

  /** Every file at once one rotation older. The oldest place keeps its file when nothing moves into it. */
  ghost predicate ShiftedAtOnce(before: FileSystem, after: FileSystem, base: string, maxFiles: nat) {
    && At(after, base, 0) == Holds("")
    && (forall i :: 1 <= i <= maxFiles ==>
          At(after, base, i) ==
          if At(before, base, i - 1).Holds? || i < maxFiles then At(before, base, i - 1) else At(before, base, i))
    && Elsewhere(before, after, base, maxFiles)
  }

  /** Files that are none of the sink's are left alone. */
  ghost predicate Elsewhere(before: FileSystem, after: FileSystem, base: string, maxFiles: nat) {
    forall name: string :: (forall i :: 0 <= i <= maxFiles ==> CalcFilename(base, i) != name) ==>
      (name in before <==> name in after) && (name in before ==> before[name] == after[name])
  }

  lemma MoveUpSlots(fs: FileSystem, base: string, i: nat, j: nat)
    requires i > 0
    ensures At(MoveUp(fs, base, i), base, j) ==
            if At(fs, base, i - 1).Absent? then At(fs, base, j)
            else if j == i then At(fs, base, i - 1)
            else if j == i - 1 then Absent
            else At(fs, base, j)
  {
    if CalcFilename(base, j) == CalcFilename(base, i) {
      CalcFilenameInjective(base, j, i);
    }
    if CalcFilename(base, j) == CalcFilename(base, i - 1) {
      CalcFilenameInjective(base, j, i - 1);
    }
    if CalcFilename(base, i) == CalcFilename(base, i - 1) {
      CalcFilenameInjective(base, i, i - 1);
    }
  }

  lemma {:induction false} MoveAllUpSlots(fs: FileSystem, base: string, i: nat, j: nat)
    ensures var moved := At(MoveAllUp(fs, base, i), base, j);
            moved == if j > i || i == 0 then At(fs, base, j)
                     else if j > 0 && At(fs, base, j - 1).Holds? then At(fs, base, j - 1)
                     else if j == i then At(fs, base, j)
                     else Absent
    decreases i
  {
    if i == 0 {
    } else {
      var next := MoveUp(fs, base, i);
      MoveAllUpSlots(next, base, i - 1, j);
      MoveUpSlots(fs, base, i, j);
      if j > 0 {
        MoveUpSlots(fs, base, i, j - 1);
      }
    }
  }

  lemma {:induction false} MoveAllUpElsewhere(fs: FileSystem, base: string, i: nat, name: string)
    requires forall k :: 0 <= k <= i ==> CalcFilename(base, k) != name
    ensures name in fs <==> name in MoveAllUp(fs, base, i)
    ensures name in fs ==> fs[name] == MoveAllUp(fs, base, i)[name]
    decreases i
  {
    if i == 0 {
    } else {
      assert CalcFilename(base, i) != name && CalcFilename(base, i - 1) != name;
      MoveAllUpElsewhere(MoveUp(fs, base, i), base, i - 1, name);
    }
  }

  /** The loop, which moves one file after the other in place, does what moving all at once would do. */
  lemma RotationShiftsAtOnce(fs: FileSystem, base: string, maxFiles: nat)
    ensures ShiftedAtOnce(fs, Rotated(fs, base, maxFiles), base, maxFiles)
  {
    var after := Rotated(fs, base, maxFiles);
    forall i | 1 <= i <= maxFiles
      ensures At(after, base, i) ==
              if At(fs, base, i - 1).Holds? || i < maxFiles then At(fs, base, i - 1) else At(fs, base, i)
    {
      MoveAllUpSlots(fs, base, maxFiles, i);
      if CalcFilename(base, i) == CalcFilename(base, 0) {
        CalcFilenameInjective(base, i, 0);
      }
    }
    forall name: string | forall i :: 0 <= i <= maxFiles ==> CalcFilename(base, i) != name
      ensures (name in fs <==> name in after) && (name in fs ==> fs[name] == after[name])
    {
      MoveAllUpElsewhere(fs, base, maxFiles, name);
      assert name != CalcFilename(base, 0);
    }
  }

  // ----- the log the files hold -----

  /** Files `i` down to 0 one after the other. */
  ghost function Chronicle(fs: FileSystem, base: string, i: nat): Bytes {
    if i == 0 then Text(At(fs, base, 0)) else Text(At(fs, base, i)) + Chronicle(fs, base, i - 1)
  }

  ghost predicate IsSuffix(tail: Bytes, whole: Bytes) {
    |tail| <= |whole| && whole[|whole| - |tail|..] == tail
  }

  /** No file but the current one has the base name. */
  lemma NotCurrent(base: string, i: nat)
    requires i > 0
    ensures CalcFilename(base, i) != CalcFilename(base, 0)
  {
    if CalcFilename(base, i) == CalcFilename(base, 0) {
      CalcFilenameInjective(base, i, 0);
    }
  }

  lemma RotatedSlot(fs: FileSystem, base: string, maxFiles: nat, i: nat)
    requires i < maxFiles
    ensures At(Rotated(fs, base, maxFiles), base, i) == if i == 0 then Holds("") else At(fs, base, i - 1)
  {
    MoveAllUpSlots(fs, base, maxFiles, i);
    if i > 0 {
      NotCurrent(base, i);
    }
  }

  lemma {:induction false} ChronicleOfRotated(fs: FileSystem, base: string, maxFiles: nat, i: nat)
    requires i < maxFiles
    ensures Chronicle(Rotated(fs, base, maxFiles), base, i) == if i == 0 then "" else Chronicle(fs, base, i - 1)
    decreases i
  {
    RotatedSlot(fs, base, maxFiles, i);
    if i == 0 {
    } else {
      ChronicleOfRotated(fs, base, maxFiles, i - 1);
      if i == 1 {
        var current := Text(At(fs, base, 0));
        assert current + "" == current;
      }
    }
  }

  ghost function Lost(fs: FileSystem, base: string, maxFiles: nat): Bytes {
    if maxFiles == 0 || At(fs, base, maxFiles - 1).Holds? then Text(At(fs, base, maxFiles)) else ""
  }

  lemma LostParts(oldest: Slot, next: Slot, newer: Bytes)
    ensures Text(oldest) + (Text(next) + newer) ==
            (if next.Holds? then Text(oldest) else "") + (Text(if next.Holds? then next else oldest) + newer)
  {
    if next.Absent? {
      assert Text(next) + newer == newer;
      var kept := Text(oldest) + newer;
      assert "" + kept == kept;
    }
  }

  /** What a rotation loses is the oldest file, and that only when another takes its place. */
  lemma RotationLosesOldest(fs: FileSystem, base: string, maxFiles: nat)
    ensures Chronicle(fs, base, maxFiles) ==
            Lost(fs, base, maxFiles) + Chronicle(Rotated(fs, base, maxFiles), base, maxFiles)
  {
    var after := Rotated(fs, base, maxFiles);
    RotationShiftsAtOnce(fs, base, maxFiles);
    if maxFiles == 0 {
      var whole := Text(At(fs, base, 0));
      assert Chronicle(after, base, 0) == "" && whole == whole + "";
    } else {
      ChronicleOfRotated(fs, base, maxFiles, maxFiles - 1);
      ChronicleUnfolds(fs, base, maxFiles);
      LostParts(At(fs, base, maxFiles), At(fs, base, maxFiles - 1), Chronicle(after, base, maxFiles - 1));
    }
  }

  lemma ChronicleUnfolds(fs: FileSystem, base: string, maxFiles: nat)
    requires maxFiles > 0
    ensures Chronicle(fs, base, maxFiles) ==
            Text(At(fs, base, maxFiles))
            + (Text(At(fs, base, maxFiles - 1)) + if maxFiles == 1 then "" else Chronicle(fs, base, maxFiles - 2))
  {
    if maxFiles == 1 {
      var current := Text(At(fs, base, 0));
      assert current + "" == current;
    }
  }

  // ----- the sink, all going well -----

  datatype Sink = Sink(base: string, maxSize: nat, maxFiles: nat, size: nat, fs: FileSystem)

  ghost predicate Good(s: Sink) {
    s.base in s.fs
  }

  /** Message `msg` is sunk, and `accepted` of its bytes are written: rotated first when it would pass the size
      limit. The whole message counts, however much of it gets through. */
  ghost function SunkPartly(s: Sink, msg: Bytes, accepted: nat): Sink
    requires Good(s) || s.size + |msg| > s.maxSize
    requires accepted <= |msg|
  {
    if s.size + |msg| > s.maxSize then
      s.(size := |msg|, fs := Rotated(s.fs, s.base, s.maxFiles)[s.base := msg[..accepted]])
    else
      s.(size := s.size + |msg|, fs := s.fs[s.base := s.fs[s.base] + msg[..accepted]])
  }

  ghost function Sunk(s: Sink, msg: Bytes): Sink
    requires Good(s) || s.size + |msg| > s.maxSize
  {
    SunkPartly(s, msg, |msg|)
  }

  ghost function SunkAll(s: Sink, msgs: seq<Bytes>): (t: Sink)
    requires Good(s)
    ensures Good(t) && t.base == s.base && t.maxFiles == s.maxFiles
  {
    if msgs == [] then s else Sunk(SunkAll(s, msgs[..|msgs| - 1]), msgs[|msgs| - 1])
  }

  ghost function Joined(msgs: seq<Bytes>): Bytes {
    if msgs == [] then "" else Joined(msgs[..|msgs| - 1]) + msgs[|msgs| - 1]
  }

  lemma OnlyCurrentGrows(before: FileSystem, after: FileSystem, base: string, i: nat)
    requires i > 0 && base in before && base in after && after == before[base := after[base]]
    ensures At(after, base, i) == At(before, base, i)
  {
    NotCurrent(base, i);
  }

  lemma {:induction false} ChronicleAppends(before: FileSystem, after: FileSystem, base: string, i: nat, msg: Bytes)
    requires base in before && after == before[base := before[base] + msg]
    ensures Chronicle(after, base, i) == Chronicle(before, base, i) + msg
    decreases i
  {
    if i == 0 {
    } else {
      ChronicleAppends(before, after, base, i - 1, msg);
      OnlyCurrentGrows(before, after, base, i);
      ConcatAssociates(Text(At(before, base, i)), Chronicle(before, base, i - 1), msg);
    }
  }

  lemma SuffixTrims(lost: Bytes, kept: Bytes, whole: Bytes, msg: Bytes)
    requires IsSuffix(lost + kept, whole)
    ensures IsSuffix(kept + msg, whole + msg)
  {
    var front := whole[..|whole| - |lost + kept|];
    assert whole == (front + lost) + kept;
    assert whole + msg == (front + lost) + (kept + msg);
  }

  lemma SunkKeepsSuffix(s: Sink, msg: Bytes, whole: Bytes)
    requires Good(s) && IsSuffix(Chronicle(s.fs, s.base, s.maxFiles), whole)
    ensures IsSuffix(Chronicle(Sunk(s, msg).fs, s.base, s.maxFiles), whole + msg)
  {
    var held := Chronicle(s.fs, s.base, s.maxFiles);
    assert msg[..|msg|] == msg;
    if s.size + |msg| > s.maxSize {
      var rotated := Rotated(s.fs, s.base, s.maxFiles);
      RotationLosesOldest(s.fs, s.base, s.maxFiles);
      var kept := Chronicle(rotated, s.base, s.maxFiles);
      assert "" + msg == msg && rotated[s.base] == "";
      ChronicleAppends(rotated, Sunk(s, msg).fs, s.base, s.maxFiles, msg);
      SuffixTrims(Lost(s.fs, s.base, s.maxFiles), kept, whole, msg);
    } else {
      ChronicleAppends(s.fs, Sunk(s, msg).fs, s.base, s.maxFiles, msg);
      assert "" + held == held;
      SuffixTrims("", held, whole, msg);
    }
  }

  lemma JoinedLast(start: Bytes, msgs: seq<Bytes>)
    requires msgs != []
    ensures Joined(msgs) == Joined(msgs[..|msgs| - 1]) + msgs[|msgs| - 1]
    ensures start + Joined(msgs) == (start + Joined(msgs[..|msgs| - 1])) + msgs[|msgs| - 1]
  {
    ConcatAssociates(start, Joined(msgs[..|msgs| - 1]), msgs[|msgs| - 1]);
  }

  /** Read oldest to newest, the files of `t` are an end piece of those of `s` followed by `text`. */
  ghost predicate LogGoesOn(s: Sink, t: Sink, text: Bytes) {
    IsSuffix(Chronicle(t.fs, s.base, s.maxFiles), Chronicle(s.fs, s.base, s.maxFiles) + text)
  }

  /** Over every run: read oldest to newest, the files are an end piece of what they held at the start followed
      by every message sunk, in order and without a gap. */
  lemma {:induction false} LogOrder(s: Sink, msgs: seq<Bytes>)
    requires Good(s)
    ensures LogGoesOn(s, SunkAll(s, msgs), Joined(msgs))
    decreases |msgs|
  {
    var start := Chronicle(s.fs, s.base, s.maxFiles);
    if msgs == [] {
      assert start + Joined(msgs) == start;
    } else {
      var front, last := msgs[..|msgs| - 1], msgs[|msgs| - 1];
      LogOrder(s, front);
      SunkKeepsSuffix(SunkAll(s, front), last, start + Joined(front));
      JoinedLast(start, msgs);
    }
  }

  /** While all goes well the size kept is that of the current file. */
  lemma SizeIsExact(s: Sink, msg: Bytes)
    requires Good(s) && s.size == |s.fs[s.base]|
    ensures var t := Sunk(s, msg);
            && t.size == |t.fs[s.base]|
            && (t.size <= s.maxSize || t.fs[s.base] == msg)
  {
    assert msg[..|msg|] == msg;
  }

  /** So a message that fits moves and loses no file. */
  lemma FittingMovesNothing(s: Sink, msg: Bytes)
    requires Good(s) && s.size == |s.fs[s.base]| && |s.fs[s.base]| + |msg| <= s.maxSize
    ensures Sunk(s, msg).fs == s.fs[s.base := s.fs[s.base] + msg]
  {
    assert msg[..|msg|] == msg;
  }

  /** And one that does not fit starts a new file, every other file one older. */
  lemma OverflowingRotates(s: Sink, msg: Bytes)
    requires Good(s) && s.size == |s.fs[s.base]| && |s.fs[s.base]| + |msg| > s.maxSize
    ensures var fs := Sunk(s, msg).fs;
            s.base in fs && fs[s.base] == msg && ShiftedAtOnce(s.fs, fs[s.base := ""], s.base, s.maxFiles)
  {
    assert msg[..|msg|] == msg;
    RotationShiftsAtOnce(s.fs, s.base, s.maxFiles);
    var rotated := Rotated(s.fs, s.base, s.maxFiles);
    assert rotated[s.base := msg][s.base := ""] == rotated;
  }

  /** Over every run the size kept is exact, and the current file is within the limit or holds one message. */
  lemma {:induction false} SizeStaysExact(s: Sink, msgs: seq<Bytes>)
    requires Good(s) && s.size == |s.fs[s.base]|
    ensures var t := SunkAll(s, msgs);
            && t.maxSize == s.maxSize && t.size == |t.fs[s.base]|
            && (msgs != [] ==> t.size <= s.maxSize || t.fs[s.base] == msgs[|msgs| - 1])
    decreases |msgs|
  {
    if msgs == [] {
    } else {
      SizeStaysExact(s, msgs[..|msgs| - 1]);
      SizeIsExact(SunkAll(s, msgs[..|msgs| - 1]), msgs[|msgs| - 1]);
    }
  }

  // ----- the sink itself -----

  /** How an attempt to reopen and truncate ends; a failed one may have truncated the file already. */
  datatype Reopening = Opens | FailsIntact | FailsTruncated

  /** The operating system during one rotation: whether the removal before the move into file i works, and whether
      the move works, at the first and at the second attempt; and how the reopening ends. */
  datatype Environment = Environment(
    removable: (nat, bool) -> bool,
    renamable: (nat, bool) -> bool,
    reopening: Reopening)

  datatype Outcome = Ok | RenameFailed(target: nat) | OpenFailed | WriteFailed

  class RotatingFileSink {
    const base: string
    const maxSize: nat
    const maxFiles: nat
    var currentSize: nat
    var fs: FileSystem
    var isOpen: bool

    ghost function CurrentBytes(): nat
      reads this
    {
      if base in fs then |fs[base]| else 0
    }

    /** The size the sink believes in is never too small. */
    ghost predicate Valid()
      reads this
    {
      (isOpen ==> base in fs) && CurrentBytes() <= currentSize
    }

    /** There is an open file to write to, or the next message makes the sink rotate first. */
    ghost predicate Usable()
      reads this
    {
      isOpen || currentSize > maxSize
    }

    ghost function Model(): Sink
      reads this
    {
      Sink(base, maxSize, maxFiles, currentSize, fs)
    }

    /** Opens the current file for appending, creating it if need be. */
    constructor (base: string, maxSize: nat, maxFiles: nat, fs: FileSystem)
      ensures Valid() && isOpen
      ensures Model() == Sink(base, maxSize, maxFiles, if base in fs then |fs[base]| else 0,
                              if base in fs then fs else fs[base := ""])
    {
      this.base, this.maxSize, this.maxFiles := base, maxSize, maxFiles;
      this.fs := if base in fs then fs else fs[base := ""];
      currentSize := if base in fs then |fs[base]| else 0;
      isOpen := true;
    }

    /** The rest of the source's constructor. The size is not reset: the next message may rotate again. */
    method RotateOnOpen(env: Environment) returns (r: Outcome)
      requires Valid() && isOpen
      modifies this
      ensures Valid() && !r.WriteFailed? && (old(currentSize) == 0 ==> r.Ok?)
      ensures r.Ok? ==> isOpen && currentSize == old(currentSize)
                        && fs == if old(currentSize) > 0 then Rotated(old(fs), base, maxFiles) else old(fs)
      ensures r.RenameFailed? ==> isOpen && currentSize == 0 && PartlyRotated(old(fs), fs, r.target) && fs[base] == ""
      ensures r.OpenFailed? ==> !isOpen && currentSize == old(currentSize) && Unopened(old(fs), fs)
    {
      r := Ok;
      if currentSize > 0 {
        r := Rotate(env);
      }
    }

    method Reopen(how: Reopening) returns (r: Outcome)
      modifies this`fs, this`isOpen
      ensures r == if how.Opens? then Ok else OpenFailed
      ensures isOpen == how.Opens?
      ensures fs == if how.FailsIntact? then old(fs) else old(fs)[base := ""]
    {
      if how.FailsIntact? {
        isOpen, r := false, OpenFailed;
      } else {
        fs := fs[base := ""];
        isOpen := how.Opens?;
        r := if isOpen then Ok else OpenFailed;
      }
    }

    /** Removes the target if it is there, then renames. */
    method RenameFile(src: string, target: string, removable: bool, renamable: bool) returns (ok: bool)
      requires src in fs && src != target
      modifies this`fs
      ensures ok == renamable
      ensures ok ==> fs == old(fs)[target := old(fs)[src]] - {src}
      ensures !ok ==> fs == if removable then old(fs) - {target} else old(fs)
    {
      if removable {
        fs := fs - {target};
      }
      ok := renamable;
      if ok {
        fs := fs[target := fs[src]] - {src};
      }
    }

    method RenameTwice(i: nat, src: string, target: string, env: Environment) returns (ok: bool)
      requires 0 < i <= maxFiles && src == CalcFilename(base, i - 1) && target == CalcFilename(base, i) && src in fs
      modifies this`fs
      ensures ok == (env.renamable(i, true) || env.renamable(i, false))
      ensures ok ==> fs == MoveUp(old(fs), base, i)
      ensures !ok ==> TargetAtRisk(old(fs), fs, i)
      ensures Elsewhere(old(fs), fs, base, maxFiles)
    {
      FilesApart(i);
      ghost var before := fs;
      OnlyTwoNames(src, target, i);
      ok := RenameFile(src, target, env.removable(i, true), env.renamable(i, true));
      if !ok {
        ok := RenameFile(src, target, env.removable(i, false), env.renamable(i, false));
        if !ok {
          OtherSlots(before, fs, i);
        } else {
          assert fs == before[target := before[src]] - {src};
        }
      }
    }

    /** Rotates the files in place from the oldest down. A move that fails twice truncates the current file anyway,
        leaves the files before it where they were, and is reported. */
    method Rotate(env: Environment) returns (r: Outcome)
      requires Valid()
      modifies this
      ensures Valid() && !r.WriteFailed? && Elsewhere(old(fs), fs, base, maxFiles)
      ensures r.Ok? ==> isOpen && currentSize == old(currentSize) && fs == Rotated(old(fs), base, maxFiles)
      ensures r.Ok? ==> ShiftedAtOnce(old(fs), fs, base, maxFiles)
      ensures r.RenameFailed? ==>
                && isOpen && currentSize == 0 && fs[base] == ""
                && !env.renamable(r.target, true) && !env.renamable(r.target, false)
                && PartlyRotated(old(fs), fs, r.target)
      ensures r.OpenFailed? ==> !isOpen && currentSize == old(currentSize) && Unopened(old(fs), fs)
    {
      isOpen := false;
      r := Ok;
      var i := maxFiles;
      while i > 0
        invariant 0 <= i <= maxFiles
        invariant MoveAllUp(fs, base, i) == MoveAllUp(old(fs), base, maxFiles)
        invariant !isOpen && currentSize == old(currentSize) && CurrentBytes() <= currentSize
        invariant Untouched(old(fs), fs, i)
        invariant i < maxFiles ==> At(fs, base, i).Absent?
        invariant i == maxFiles ==> fs == old(fs)
        invariant Elsewhere(old(fs), fs, base, maxFiles)
        decreases i
      {
        var src, target := CalcFilename(base, i - 1), CalcFilename(base, i);
        if src in fs {
          ghost var before := fs;
          var ok := RenameTwice(i, src, target, env);
          ElsewhereFollows(old(fs), before, fs);
          if !ok {
            ghost var broken := fs;
            assert CalcFilename(base, 0) == base && At(broken, base, 0) == At(before, base, 0);
            r := Reopen(env.reopening);
            AbandonedPartly(old(fs), before, broken, fs, i);
            ElsewhereFollows(old(fs), broken, fs);
            if r.OpenFailed? {
              return;
            }
            currentSize := 0;
            r := RenameFailed(i);
            return;
          }
          UntouchedMove(old(fs), before, i);
          CurrentAfterMove(before, i);
        }
        i := i - 1;
      }
      ghost var moved := fs;
      r := Reopen(env.reopening);
      ElsewhereFollows(old(fs), moved, fs);
      RotationShiftsAtOnce(old(fs), base, maxFiles);
    }

    /** Sinks one formatted message. `written` is how many bytes the stream accepts. Whatever fails, the sink can be
        given another message: one whose file could not be reopened tries again then. */
    method SinkIt(formatted: Bytes, env: Environment, written: nat) returns (r: Outcome)
      requires Valid() && Usable()
      modifies this
      ensures Valid() && Usable()
      ensures r.Ok? ==> isOpen && base in fs && (CurrentBytes() <= maxSize || fs[base] == formatted)
      ensures r.Ok? ==> Model() == Sunk(old(Model()), formatted) && |formatted| <= written
      ensures r.Ok? && old(currentSize) == old(CurrentBytes()) ==> currentSize == CurrentBytes()
      ensures r.Ok? || r.WriteFailed? ==>
                var accepted := if written < |formatted| then written else |formatted|;
                && base in fs
                && if old(currentSize) + |formatted| > maxSize then
                     && currentSize == |formatted| && fs[base] == formatted[..accepted]
                     && ShiftedAtOnce(old(fs), fs[base := ""], base, maxFiles)
                   else
                     && currentSize == old(currentSize) + |formatted| && base in old(fs)
                     && fs == old(fs)[base := old(fs)[base] + formatted[..accepted]]
      ensures r.WriteFailed? ==> isOpen && written < |formatted|
      ensures r.WriteFailed? ==> Model() == SunkPartly(old(Model()), formatted, written)
      ensures r.RenameFailed? || r.OpenFailed? ==> old(currentSize) + |formatted| > maxSize
      ensures r.RenameFailed? ==> isOpen && currentSize == 0 && PartlyRotated(old(fs), fs, r.target) && fs[base] == ""
      ensures r.OpenFailed? ==> Unopened(old(fs), fs)
      ensures r.OpenFailed? ==> !isOpen && currentSize == old(currentSize) + |formatted|
    {
      currentSize := currentSize + |formatted|;
      if currentSize > maxSize {
        r := Rotate(env);
        if !r.Ok? {
          return;
        }
        currentSize := |formatted|;
      }
      var accepted := if written < |formatted| then written else |formatted|;
      ghost var before := fs;
      fs := fs[base := fs[base] + formatted[..accepted]];
      if old(currentSize) + |formatted| > maxSize {
        assert fs[base := ""] == before;
      }
      r := if written < |formatted| then WriteFailed else Ok;
      assert formatted[..|formatted|] == formatted;
      assert "" + formatted[..accepted] == formatted[..accepted];
    }

    lemma FilesApart(i: nat)
      requires i > 0
      ensures forall j :: 0 <= j < i ==> CalcFilename(base, j) != CalcFilename(base, i)
    {
      forall j | 0 <= j < i ensures CalcFilename(base, j) != CalcFilename(base, i) {
        if CalcFilename(base, j) == CalcFilename(base, i) {
          CalcFilenameInjective(base, j, i);
        }
      }
    }

    /** A failed move may cost the target, nothing else. */
    ghost predicate TargetAtRisk(before: FileSystem, after: FileSystem, i: nat) {
      && (forall j :: 0 <= j && j != i ==> At(after, base, j) == At(before, base, j))
      && (At(after, base, i).Holds? ==> At(after, base, i) == At(before, base, i))
    }

    lemma OtherSlots(before: FileSystem, after: FileSystem, i: nat)
      requires i > 0 && (after == before || after == before - {CalcFilename(base, i)})
      ensures TargetAtRisk(before, after, i)
    {
      forall j | 0 <= j && j != i ensures At(after, base, j) == At(before, base, j) {
        if CalcFilename(base, j) == CalcFilename(base, i) {
          CalcFilenameInjective(base, j, i);
        }
      }
    }

    lemma OnlyTwoNames(src: string, target: string, i: nat)
      requires 0 < i <= maxFiles && src == CalcFilename(base, i - 1) && target == CalcFilename(base, i)
      ensures forall before: FileSystem, after: FileSystem ::
                (forall name: string :: name != src && name != target ==>
                   (name in before <==> name in after) && (name in before ==> before[name] == after[name]))
                ==> Elsewhere(before, after, base, maxFiles)
    {
    }

    lemma ElsewhereFollows(a: FileSystem, b: FileSystem, c: FileSystem)
      requires Elsewhere(a, b, base, maxFiles)
      requires Elsewhere(b, c, base, maxFiles) || c == b || c == b[base := ""]
      ensures Elsewhere(a, c, base, maxFiles)
    {
      assert CalcFilename(base, 0) == base;
    }

    /** The files below `i` are where they were. */
    ghost predicate Untouched(before: FileSystem, now: FileSystem, i: nat) {
      forall j :: 0 <= j < i ==> At(now, base, j) == At(before, base, j)
    }

    lemma UntouchedMove(before: FileSystem, now: FileSystem, i: nat)
      requires i > 0 && Untouched(before, now, i)
      ensures Untouched(before, MoveUp(now, base, i), i - 1)
    {
      forall j | 0 <= j < i - 1 ensures At(MoveUp(now, base, i), base, j) == At(now, base, j) {
        MoveUpSlots(now, base, i, j);
      }
    }

    /** A rotation that stopped at `target`: the files above are rotated, those below but the current one are not,
        and of the file at the target itself no more is left than the oldest file that was there. */
    ghost predicate PartlyRotated(before: FileSystem, after: FileSystem, target: nat) {
      && 1 <= target <= maxFiles
      && (forall j :: 0 < j < target ==> At(after, base, j) == At(before, base, j))
      && (At(after, base, target).Holds? ==> target == maxFiles && At(after, base, target) == At(before, base, target))
      && (forall j :: target < j <= maxFiles ==> At(after, base, j) == At(Rotated(before, base, maxFiles), base, j))
    }

    /** A rotation whose reopening failed: the files had all moved, or it had stopped on the way. */
    ghost predicate Unopened(before: FileSystem, after: FileSystem) {
      || after == MoveAllUp(before, base, maxFiles)
      || after == Rotated(before, base, maxFiles)
      || exists target: nat :: PartlyRotated(before, after, target)
    }

    lemma AbandonedPartly(before: FileSystem, now: FileSystem, broken: FileSystem, after: FileSystem, i: nat)
      requires 1 <= i <= maxFiles && Untouched(before, now, i)
      requires MoveAllUp(now, base, i) == MoveAllUp(before, base, maxFiles)
      requires TargetAtRisk(now, broken, i)
      requires if i == maxFiles then now == before else At(now, base, i).Absent?
      requires after == broken || after == broken[base := ""]
      ensures PartlyRotated(before, after, i)
    {
      MovedAbove(before, now, i);
      SlotsReopened(broken, after);
    }

    /** The files above `i` are already where the whole rotation puts them. */
    lemma MovedAbove(before: FileSystem, now: FileSystem, i: nat)
      requires MoveAllUp(now, base, i) == MoveAllUp(before, base, maxFiles)
      ensures forall j :: i < j ==> At(now, base, j) == At(Rotated(before, base, maxFiles), base, j)
    {
      forall j | i < j ensures At(now, base, j) == At(Rotated(before, base, maxFiles), base, j) {
        MoveAllUpSlots(now, base, i, j);
        if CalcFilename(base, j) == CalcFilename(base, 0) {
          CalcFilenameInjective(base, j, 0);
        }
      }
    }

    lemma SlotsReopened(before: FileSystem, after: FileSystem)
      requires after == before || after == before[base := ""]
      ensures forall j :: 0 < j ==> At(after, base, j) == At(before, base, j)
    {
      forall j | 0 < j ensures At(after, base, j) == At(before, base, j) {
        FilesApart(j);
        assert CalcFilename(base, 0) == base;
      }
    }

    /** The current file keeps its contents until it moves itself. */
    lemma CurrentAfterMove(before: FileSystem, i: nat)
      requires i > 0
      ensures var after := MoveUp(before, base, i);
              base in after ==> base in before && after[base] == before[base]
    {
      FilesApart(i);
      assert CalcFilename(base, 0) == base;
    }
  }
}

/** The retention queue of include/spdlog/sinks/daily_file_sink.h. */
module DailyRetention {
  import opened BoundedSeq
  import opened Circular
  import opened SeqFacts

  datatype Removal = NotAttempted | Removed(name: string) | Failed(name: string)

  /** One call of the retention rule on plain sequences: what retires, what stays. */
  lemma RetainStep(retired: seq<string>, kept: seq<string>, name: string, n: nat)
    requires 0 < n && |kept| <= n && (retired == [] || |kept| == n)
    ensures var room := if |kept| == n then kept[1..] else kept;
            && Push(n + 1, room, name) == room + [name]
            && (retired + kept) + [name] == (if |kept| == n then retired + [kept[0]] else retired) + (room + [name])
  {
  }

  /** `found` names, oldest first, the files of the most recent days without a gap, no more than `maxFiles`;
      `nameAt(k)` is the name of the file of `k` days ago. */
  ghost predicate IsRecent(found: seq<string>, maxFiles: nat, disk: set<string>, nameAt: nat -> string) {
    && |found| <= maxFiles
    && (forall k :: 0 <= k < |found| ==> found[k] == nameAt(|found| - 1 - k) && found[k] in disk)
    && (|found| < maxFiles ==> nameAt(|found|) !in disk)
  }

  /** The first loop of init_filenames_q_: back from today until a day has no file. */
  method RecentFiles(maxFiles: nat, disk: set<string>, nameAt: nat -> string) returns (filenames: seq<string>)
    ensures |filenames| <= maxFiles
    ensures forall k :: 0 <= k < |filenames| ==> filenames[k] == nameAt(k) && filenames[k] in disk
    ensures |filenames| < maxFiles ==> nameAt(|filenames|) !in disk
  {
    filenames := [];
    while |filenames| < maxFiles
      invariant |filenames| <= maxFiles
      invariant forall k :: 0 <= k < |filenames| ==> filenames[k] == nameAt(k) && filenames[k] in disk
      decreases maxFiles - |filenames|
    {
      var filename := nameAt(|filenames|);
      if filename !in disk {
        break;
      }
      filenames := filenames + [filename];
    }
  }

  ghost function Backwards(s: seq<string>): (r: seq<string>)
    ensures |r| == |s| && forall k :: 0 <= k < |s| ==> r[k] == s[|s| - 1 - k]
  {
    seq(|s|, k requires 0 <= k < |s| => s[|s| - 1 - k])
  }

  lemma BackwardsIsRecent(filenames: seq<string>, maxFiles: nat, disk: set<string>, nameAt: nat -> string)
    requires |filenames| <= maxFiles && (|filenames| < maxFiles ==> nameAt(|filenames|) !in disk)
    requires forall k :: 0 <= k < |filenames| ==> filenames[k] == nameAt(k) && filenames[k] in disk
    ensures IsRecent(Backwards(filenames), maxFiles, disk, nameAt)
  {
  }

  lemma BackwardsGrows(s: seq<string>, i: nat)
    requires i < |s|
    ensures Backwards(s[i..]) == Backwards(s[i + 1..]) + [s[i]]
  {
  }

  /** The second loop of init_filenames_q_: the names go into a new queue in reverse. */
  method QueueOldestFirst(maxFiles: nat, filenames: seq<string>) returns (q: CircularQ<string>)
    requires |filenames| <= maxFiles && 0 < maxFiles < 0x1_0000
    ensures q.Valid() && q.maxItems == maxFiles + 1 && q.overrunCounter == 0 && fresh(q) && fresh(q.v)
    ensures q.contents == Backwards(filenames)
  {
    q := new CircularQ<string>(maxFiles);
    var i := |filenames|;
    while i > 0
      invariant 0 <= i <= |filenames|
      invariant q.Valid() && q.maxItems == maxFiles + 1 && q.overrunCounter == 0 && fresh(q.v)
      invariant q.contents == Backwards(filenames[i..])
    {
      i := i - 1;
      BackwardsGrows(filenames, i);
      RetainStep([], q.contents, filenames[i], maxFiles);
      q.PushBack(filenames[i]);
    }
    assert filenames[0..] == filenames;
  }

  // ----- which files stay on the disk -----

  /** The names in the queue, oldest first, and the names of the files on the disk. */
  datatype Held = Held(names: seq<string>, disk: set<string>)

  /** A rotation: the file it opens, whether the message is then formatted and written, and whether the operating
      system would remove the oldest file. */
  datatype Rotation = Rotation(name: string, written: bool, removable: bool)

  /** A file is opened, which puts it on the disk, and the oldest one retires if the queue is full. A message that
      cannot be written ends the rotation before the new name is queued. */
  function Retain(h: Held, maxFiles: nat, r: Rotation): Held
    requires maxFiles > 0
  {
    var disk := h.disk + {r.name};
    if !r.written then Held(h.names, disk)
    else if |h.names| < maxFiles then Held(h.names + [r.name], disk)
    else
      Held(h.names[1..] + [r.name],
           if h.names[0] in disk && !r.removable then disk else disk - {h.names[0]})
  }

  /** The rule for a file that is on the disk already. */
  lemma RetainOpened(h: Held, maxFiles: nat, r: Rotation)
    requires maxFiles > 0 && r.written
    ensures r.name in h.disk ==>
              Retain(h, maxFiles, r) ==
              if |h.names| < maxFiles then Held(h.names + [r.name], h.disk)
              else Held(h.names[1..] + [r.name],
                        if h.names[0] in h.disk && !r.removable then h.disk else h.disk - {h.names[0]})
  {
    if r.name in h.disk {
      assert h.disk + {r.name} == h.disk;
    }
  }

  /** The name about to retire occurs again behind the front, or is that of the file just opened. */
  predicate FrontAgain(h: Held, maxFiles: nat, r: Rotation)
    requires maxFiles > 0
  {
    |h.names| >= maxFiles && h.names[0] in h.names[1..] + [r.name]
  }

  // Every file named in the queue is there.

  ghost predicate AllOnDisk(h: Held) {
    forall k :: 0 <= k < |h.names| ==> h.names[k] in h.disk
  }

  /** The rotation removes a file whose name is in the queue a second time. */
  predicate LosesFile(h: Held, maxFiles: nat, r: Rotation)
    requires maxFiles > 0
  {
    r.written && r.removable && FrontAgain(h, maxFiles, r)
  }

  /** A rotation keeps every file named in the queue if and only if it does not remove one whose name is in the
      queue twice. */
  lemma RetainsExactly(h: Held, maxFiles: nat, r: Rotation)
    requires maxFiles > 0 && AllOnDisk(h)
    ensures AllOnDisk(Retain(h, maxFiles, r)) <==> !LosesFile(h, maxFiles, r)
  {
    var after := Retain(h, maxFiles, r);
    if LosesFile(h, maxFiles, r) {
      var k :| 0 <= k < |after.names| && after.names[k] == h.names[0];
      assert after.names[k] !in after.disk;
    }
  }

  /** The files are there now and after each of the rotations. */
  ghost predicate AlwaysOnDisk(h: Held, maxFiles: nat, rs: seq<Rotation>)
    requires maxFiles > 0
    decreases |rs|
  {
    AllOnDisk(h) && (rs != [] ==> AlwaysOnDisk(Retain(h, maxFiles, rs[0]), maxFiles, rs[1..]))
  }

  /** None of the rotations removes a file whose name is in the queue twice. */
  predicate NeverLoses(h: Held, maxFiles: nat, rs: seq<Rotation>)
    requires maxFiles > 0
    decreases |rs|
  {
    rs == [] ||
    (!LosesFile(h, maxFiles, rs[0]) && NeverLoses(Retain(h, maxFiles, rs[0]), maxFiles, rs[1..]))
  }

  /** Over every run of rotations, failed writes and removals included: the last files are retained, as promised, if
      and only if no rotation removes a file whose name is in the queue twice. */
  lemma {:induction false} RetainedThroughout(h: Held, maxFiles: nat, rs: seq<Rotation>)
    requires maxFiles > 0 && AllOnDisk(h)
    ensures AlwaysOnDisk(h, maxFiles, rs) <==> NeverLoses(h, maxFiles, rs)
    decreases |rs|
  {
    if rs == [] {
    } else {
      RetainsExactly(h, maxFiles, rs[0]);
      var after := Retain(h, maxFiles, rs[0]);
      if AllOnDisk(after) {
        RetainedThroughout(after, maxFiles, rs[1..]);
      }
    }
  }

  // The same on names alone.

  /** The rotations that get as far as the queue. */
  function Queued(rs: seq<Rotation>): seq<Rotation>
    decreases |rs|
  {
    if rs == [] then [] else (if rs[0].written then [rs[0]] else []) + Queued(rs[1..])
  }

  function NamesOf(rs: seq<Rotation>): (names: seq<string>)
    ensures |names| == |rs| && forall k :: 0 <= k < |rs| ==> names[k] == rs[k].name
    decreases |rs|
  {
    if rs == [] then [] else [rs[0].name] + NamesOf(rs[1..])
  }

  /** The name at `front` occurs again among the next `n`. */
  predicate Again(all: seq<string>, front: nat, n: nat)
    requires front + n < |all|
  {
    all[front] in all[front + 1..front + 1 + n]
  }

  /** Rotation `k` retires a name that occurs again among the `maxFiles` names after it. */
  ghost predicate ComesBack(names: seq<string>, maxFiles: nat, rs: seq<Rotation>, k: nat)
    requires |names| <= maxFiles && k < |rs|
  {
    |names| + k >= maxFiles && rs[k].removable && Again(names + NamesOf(rs), |names| + k - maxFiles, maxFiles)
  }

  ghost predicate NoneComesBack(names: seq<string>, maxFiles: nat, rs: seq<Rotation>)
    requires |names| <= maxFiles
  {
    forall k :: 0 <= k < |rs| ==> !ComesBack(names, maxFiles, rs, k)
  }

  function NamesAfter(names: seq<string>, maxFiles: nat, name: string): (after: seq<string>)
    requires 0 < maxFiles && |names| <= maxFiles
    ensures |after| == if |names| < maxFiles then |names| + 1 else maxFiles
  {
    if |names| < maxFiles then names + [name] else names[1..] + [name]
  }

  lemma AgainLater(all: seq<string>, front: nat, n: nat)
    requires front + 1 + n < |all|
    ensures Again(all[1..], front, n) <==> Again(all, front + 1, n)
  {
    assert all[1..][front] == all[front + 1];
    assert all[1..][front + 1..front + 1 + n] == all[front + 2..front + 2 + n];
  }

  lemma NamesShift(names: seq<string>, maxFiles: nat, r: Rotation, later: seq<Rotation>)
    requires 0 < maxFiles && |names| <= maxFiles
    ensures var all, next := names + NamesOf([r] + later), NamesAfter(names, maxFiles, r.name) + NamesOf(later);
            next == if |names| < maxFiles then all else all[1..]
  {
    NamesOfFirst(r, later);
    hide NamesOf;
    if |names| < maxFiles {
      ConcatAssociates(names, [r.name], NamesOf(later));
    } else {
      DropAppends(names, 1, [r.name] + NamesOf(later));
      ConcatAssociates(names[1..], [r.name], NamesOf(later));
    }
  }

  lemma NamesOfFirst(r: Rotation, later: seq<Rotation>)
    ensures NamesOf([r] + later) == [r.name] + NamesOf(later)
  {
    assert ([r] + later)[1..] == later;
  }

  lemma ComesBackLater(names: seq<string>, maxFiles: nat, r: Rotation, later: seq<Rotation>, k: nat)
    requires 0 < maxFiles && |names| <= maxFiles && k < |later|
    ensures ComesBack(names, maxFiles, [r] + later, k + 1)
       <==> ComesBack(NamesAfter(names, maxFiles, r.name), maxFiles, later, k)
  {
    hide Again, NamesOf, NamesAfter;
    var all, after := names + NamesOf([r] + later), NamesAfter(names, maxFiles, r.name);
    var next := after + NamesOf(later);
    NamesShift(names, maxFiles, r, later);
    assert |after| == (if |names| < maxFiles then |names| + 1 else maxFiles) && ([r] + later)[k + 1] == later[k];
    if |names| < maxFiles {
      assert all == next;
    } else {
      AgainLater(all, k, maxFiles);
    }
  }

  lemma ComesBackFirst(h: Held, maxFiles: nat, r: Rotation, later: seq<Rotation>)
    requires 0 < maxFiles && |h.names| <= maxFiles && r.written
    ensures ComesBack(h.names, maxFiles, [r] + later, 0) <==> LosesFile(h, maxFiles, r)
  {
    var all := h.names + NamesOf([r] + later);
    assert ([r] + later)[1..] == later && all == h.names + ([r.name] + NamesOf(later));
    if |h.names| == maxFiles {
      assert all[1..1 + maxFiles] == h.names[1..] + [r.name];
    }
  }

  lemma NoneComesBackStep(names: seq<string>, maxFiles: nat, r: Rotation, later: seq<Rotation>)
    requires 0 < maxFiles && |names| <= maxFiles
    ensures NoneComesBack(names, maxFiles, [r] + later)
       <==> !ComesBack(names, maxFiles, [r] + later, 0)
            && NoneComesBack(NamesAfter(names, maxFiles, r.name), maxFiles, later)
  {
    hide ComesBack;
    var rs, next := [r] + later, NamesAfter(names, maxFiles, r.name);
    if NoneComesBack(names, maxFiles, rs) {
      forall k | 0 <= k < |later| ensures !ComesBack(next, maxFiles, later, k) {
        ComesBackLater(names, maxFiles, r, later, k);
        assert !ComesBack(names, maxFiles, rs, k + 1);
      }
    }
    if !ComesBack(names, maxFiles, rs, 0) && NoneComesBack(next, maxFiles, later) {
      forall k | 0 <= k < |rs| ensures !ComesBack(names, maxFiles, rs, k) {
        if k > 0 {
          ComesBackLater(names, maxFiles, r, later, k - 1);
        }
      }
    }
  }

  lemma {:induction false} NamesDecide(h: Held, maxFiles: nat, rs: seq<Rotation>)
    requires 0 < maxFiles && |h.names| <= maxFiles
    ensures NeverLoses(h, maxFiles, rs) <==> NoneComesBack(h.names, maxFiles, Queued(rs))
    decreases |rs|
  {
    if rs == [] {
    } else {
      var r, later := rs[0], Queued(rs[1..]);
      NamesDecide(Retain(h, maxFiles, r), maxFiles, rs[1..]);
      if r.written {
        ComesBackFirst(h, maxFiles, r, later);
        NoneComesBackStep(h.names, maxFiles, r, later);
      } else {
        assert Queued(rs) == later;
      }
    }
  }

  /** The last files are retained if and only if no rotation removes a file whose name comes back among the next
      names queued. */
  lemma RetainedByNames(h: Held, maxFiles: nat, rs: seq<Rotation>)
    requires 0 < maxFiles && |h.names| <= maxFiles && AllOnDisk(h)
    ensures AlwaysOnDisk(h, maxFiles, rs) <==> NoneComesBack(h.names, maxFiles, Queued(rs))
  {
    RetainedThroughout(h, maxFiles, rs);
    NamesDecide(h, maxFiles, rs);
  }

  ghost predicate Distinct(s: seq<string>) {
    forall i, j :: 0 <= i < j < |s| ==> s[i] != s[j]
  }

  /** With one rotation a day no name comes twice, and the promise is kept. */
  lemma DistinctNamesStay(h: Held, maxFiles: nat, rs: seq<Rotation>)
    requires 0 < maxFiles && |h.names| <= maxFiles && AllOnDisk(h) && Distinct(h.names + NamesOf(Queued(rs)))
    ensures AlwaysOnDisk(h, maxFiles, rs)
  {
    RetainedByNames(h, maxFiles, rs);
  }

  /** A sink for one file, made before the rotation hour, removes the file it writes to when that hour comes on the
      same day: the name is in the queue already. */
  lemma SameDayRemovesCurrent(name: string)
    ensures Retain(Held([name], {name}), 1, Rotation(name, true, true)) == Held([name], {})
  {
    var h := Held([name], {name});
    assert h.names[1..] + [name] == [name];
  }

  // No other file of the sink is there.

  /** Every file is one of the queue's or one of those that were there before. */
  ghost predicate NoneLeftOver(h: Held, foreign: set<string>) {
    forall name :: name in h.disk ==> name in foreign || name in h.names
  }

  /** The rotation leaves a file behind: the one it opened, when the message is not written, or the oldest one, when
      its removal fails. */
  predicate LeavesOver(h: Held, maxFiles: nat, r: Rotation, foreign: set<string>)
    requires maxFiles > 0
  {
    if !r.written then r.name !in foreign && r.name !in h.names
    else
      && |h.names| >= maxFiles && !r.removable && h.names[0] in h.disk + {r.name}
      && h.names[0] !in foreign && !FrontAgain(h, maxFiles, r)
  }

  lemma LeavesOverExactly(h: Held, maxFiles: nat, r: Rotation, foreign: set<string>)
    requires maxFiles > 0 && NoneLeftOver(h, foreign)
    ensures NoneLeftOver(Retain(h, maxFiles, r), foreign) <==> !LeavesOver(h, maxFiles, r, foreign)
  {
    var after := Retain(h, maxFiles, r);
    if LeavesOver(h, maxFiles, r, foreign) {
      var name := if r.written then h.names[0] else r.name;
      assert name in after.disk && name !in foreign && name !in after.names;
    } else {
      forall name | name in after.disk ensures name in foreign || name in after.names {
        if name in h.names && name !in after.names {
          assert name == h.names[0];
        }
      }
    }
  }

  ghost predicate NeverLeftOver(h: Held, maxFiles: nat, rs: seq<Rotation>, foreign: set<string>)
    requires maxFiles > 0
    decreases |rs|
  {
    && NoneLeftOver(h, foreign)
    && (rs != [] ==> NeverLeftOver(Retain(h, maxFiles, rs[0]), maxFiles, rs[1..], foreign))
  }

  predicate NoneLeaves(h: Held, maxFiles: nat, rs: seq<Rotation>, foreign: set<string>)
    requires maxFiles > 0
    decreases |rs|
  {
    rs == [] ||
    (!LeavesOver(h, maxFiles, rs[0], foreign) && NoneLeaves(Retain(h, maxFiles, rs[0]), maxFiles, rs[1..], foreign))
  }

  /** Over every run: the previous files are deleted, as promised, if and only if no rotation leaves one behind. */
  lemma {:induction false} DeletedThroughout(h: Held, maxFiles: nat, rs: seq<Rotation>, foreign: set<string>)
    requires maxFiles > 0 && NoneLeftOver(h, foreign)
    ensures NeverLeftOver(h, maxFiles, rs, foreign) <==> NoneLeaves(h, maxFiles, rs, foreign)
    decreases |rs|
  {
    if rs == [] {
    } else {
      LeavesOverExactly(h, maxFiles, rs[0], foreign);
      var after := Retain(h, maxFiles, rs[0]);
      if NoneLeftOver(after, foreign) {
        DeletedThroughout(after, maxFiles, rs[1..], foreign);
      }
    }
  }

  /** In particular nothing is left behind when every write and every removal works. */
  lemma {:induction false} WorkingDiskIsTidy(h: Held, maxFiles: nat, rs: seq<Rotation>, foreign: set<string>)
    requires maxFiles > 0 && NoneLeftOver(h, foreign)
    requires forall k :: 0 <= k < |rs| ==> rs[k].written && rs[k].removable
    ensures NeverLeftOver(h, maxFiles, rs, foreign)
    decreases |rs|
  {
    if rs == [] {
    } else {
      LeavesOverExactly(h, maxFiles, rs[0], foreign);
      WorkingDiskIsTidy(Retain(h, maxFiles, rs[0]), maxFiles, rs[1..], foreign);
    }
  }

  function RetainAll(h: Held, maxFiles: nat, rs: seq<Rotation>): Held
    requires maxFiles > 0
    decreases |rs|
  {
    if rs == [] then h else RetainAll(Retain(h, maxFiles, rs[0]), maxFiles, rs[1..])
  }

  /** A file left behind stays for good, unless one of its name is opened again. */
  lemma {:induction false} LeftOverStays(h: Held, maxFiles: nat, rs: seq<Rotation>, name: string)
    requires maxFiles > 0 && name in h.disk && name !in h.names
    requires forall k :: 0 <= k < |rs| ==> rs[k].name != name
    ensures name in RetainAll(h, maxFiles, rs).disk && name !in RetainAll(h, maxFiles, rs).names
    decreases |rs|
  {
    if rs == [] {
    } else {
      LeftOverStays(Retain(h, maxFiles, rs[0]), maxFiles, rs[1..], name);
    }
  }

  // ----- the sink -----

  datatype Sinking = Done | WriteFailed | RemovalFailed(name: string)

  class DailyFileSink {
    const maxFiles: nat
    const filenamesQ: CircularQ<string>
    /** The file written to. */
    var currentFile: string
    /** The names of the files on the disk. */
    var disk: set<string>
    /** Every name ever put in the queue, and every name ever given to removal. */
    ghost var named: seq<string>
    ghost var retired: seq<string>

    /** Nothing was ever overrun, names retire in the order in which they were queued, each exactly when it
        leaves the queue, and none retires before the queue has filled. */
    ghost predicate Valid()
      reads this, filenamesQ, filenamesQ.v
    {
      && 0 < maxFiles < 0x1_0000
      && filenamesQ.Valid() && filenamesQ.maxItems == maxFiles + 1
      && filenamesQ.overrunCounter == 0
      && named == retired + filenamesQ.contents
      && (retired == [] || |filenamesQ.contents| == maxFiles)
    }

    ghost function Model(): Held
      reads this, filenamesQ
    {
      Held(filenamesQ.contents, disk)
    }

    /** A sink that has opened the file of today, and whose queue starts with the recent files on the disk. A sink
        with no file limit keeps no queue and is not built here. */
    constructor (maxFiles: nat, found: set<string>, nameAt: nat -> string)
      requires 0 < maxFiles < 0x1_0000
      ensures Valid() && this.maxFiles == maxFiles && currentFile == nameAt(0) && retired == []
      ensures disk == found + {nameAt(0)} && AllOnDisk(Model())
      ensures IsRecent(filenamesQ.contents, maxFiles, disk, nameAt)
      ensures fresh(filenamesQ) && fresh(filenamesQ.v)
    {
      var present := found + {nameAt(0)};
      var filenames := RecentFiles(maxFiles, present, nameAt);
      var q := QueueOldestFirst(maxFiles, filenames);
      BackwardsIsRecent(filenames, maxFiles, present, nameAt);
      this.maxFiles := maxFiles;
      currentFile := nameAt(0);
      disk := present;
      filenamesQ := q;
      named, retired := q.contents, [];
    }

    /** Sinks a message: one that comes at or after the rotation time opens the file `filename` first and makes room
        for it last, if the message is formatted and written. */
    method SinkIt(shouldRotate: bool, filename: string, written: bool, removable: bool) returns (result: Sinking)
      requires Valid()
      modifies this`currentFile, this`disk, this`named, this`retired, filenamesQ, filenamesQ.v
      ensures Valid() && filenamesQ.v == old(filenamesQ.v)
      ensures currentFile == if shouldRotate then filename else old(currentFile)
      ensures Model() ==
              if shouldRotate then Retain(old(Model()), maxFiles, Rotation(filename, written, removable))
              else old(Model())
      ensures named == if shouldRotate && written then old(named) + [filename] else old(named)
      ensures shouldRotate && written ==> filenamesQ.contents == LastN(named, maxFiles)
      ensures !(shouldRotate && written) ==> filenamesQ.contents == old(filenamesQ.contents)
      ensures var present := old(disk) + if shouldRotate then {filename} else {};
              disk ==
              if shouldRotate && result.Done? && |old(filenamesQ.contents)| == maxFiles
              then present - {old(filenamesQ.contents)[0]}
              else present
      ensures var names := old(filenamesQ.contents);
              result ==
              if !written then WriteFailed
              else if shouldRotate && |names| == maxFiles && names[0] in old(disk) + {filename} && !removable
              then RemovalFailed(names[0])
              else Done
    {
      if shouldRotate {
        currentFile := filename;
        disk := disk + {filename};
      }
      if !written {
        return WriteFailed;
      }
      result := Done;
      if shouldRotate {
        var removal := DeleteOld(removable);
        if removal.Failed? {
          result := RemovalFailed(removal.name);
        }
      }
    }

    /** Makes room for the file just opened; `removable` is the answer of the operating system to a
        removal. A failed removal is reported after the new name is queued. */
    method DeleteOld(removable: bool) returns (result: Removal)
      requires Valid()
      modifies this`disk, this`named, this`retired, filenamesQ, filenamesQ.v
      ensures Valid() && filenamesQ.v == old(filenamesQ.v)
      ensures filenamesQ.contents == LastN(named, maxFiles)
      ensures named == old(named) + [currentFile]
      ensures result == NotAttempted <==> |old(filenamesQ.contents)| < maxFiles
      ensures result.NotAttempted? ==> retired == old(retired) && disk == old(disk)
      ensures !result.NotAttempted? ==>
                && result.name == old(filenamesQ.contents)[0]
                && retired == old(retired) + [result.name]
                && (result.Failed? <==> result.name in old(disk) && !removable)
                && disk == if result.Failed? then old(disk) else old(disk) - {result.name}
      ensures currentFile in old(disk) ==>
                Model() == Retain(old(Model()), maxFiles, Rotation(currentFile, true, removable))
    {
      RetainStep(retired, filenamesQ.contents, currentFile, maxFiles);
      ghost var before := Model();
      result := NotAttempted;
      var full := filenamesQ.IsFull();
      if full {
        var oldFilename := filenamesQ.Front();
        filenamesQ.PopFront();
        retired := retired + [oldFilename];
        if oldFilename in disk && !removable {
          result := Failed(oldFilename);
        } else {
          disk := disk - {oldFilename};
          result := Removed(oldFilename);
        }
      }
      filenamesQ.PushBack(currentFile);
      named := named + [currentFile];
      LastNKeeps(retired, filenamesQ.contents, maxFiles);
      RetainOpened(before, maxFiles, Rotation(currentFile, true, removable));
    }
  }
}

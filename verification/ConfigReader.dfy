/** The configuration parser of src/configReader.cpp. */
module ConfigReader {
  import opened SeqFacts

  // ----- split -----

  /** The first index from `from` on that holds `delim`, or the length. */
  function Scan(s: string, delim: char, from: nat): (j: nat)
    requires from <= |s|
    ensures from <= j <= |s| && (forall k :: from <= k < j ==> s[k] != delim) && (j < |s| ==> s[j] == delim)
    decreases |s| - from
  {
    if from == |s| || s[from] == delim then from else Scan(s, delim, from + 1)
  }

  /** The pieces of `s` from an index on that lie between delimiters, the empty ones left out. */
  function RunsFrom(s: string, delim: char, from: nat): seq<string>
    requires from <= |s|
    decreases |s| - from
  {
    if from == |s| then []
    else if s[from] == delim then RunsFrom(s, delim, from + 1)
    else
      var end := Scan(s, delim, from + 1);
      [s[from..end]] + RunsFrom(s, delim, end)
  }

  function Runs(s: string, delim: char): seq<string> {
    RunsFrom(s, delim, 0)
  }

  /** `s[i..j]` holds no delimiter and cannot be made longer without taking one in. */
  ghost predicate IsMaximalRun(s: string, delim: char, i: nat, j: nat) {
    && i < j <= |s| && (forall k :: i <= k < j ==> s[k] != delim)
    && (i == 0 || s[i - 1] == delim) && (j == |s| || s[j] == delim)
  }

  /** `at` says where `runs` lie in `s`: maximal, from left to right, none before `from`. */
  ghost predicate Located(s: string, delim: char, from: nat, runs: seq<string>, at: seq<(nat, nat)>) {
    && |at| == |runs|
    && (forall k :: 0 <= k < |at| ==>
          from <= at[k].0 && IsMaximalRun(s, delim, at[k].0, at[k].1) && runs[k] == s[at[k].0..at[k].1])
    && (forall k, l :: 0 <= k < l < |at| ==> at[k].1 < at[l].0)
  }

  /** No maximal run from `from` on is missing. */
  ghost predicate Complete(s: string, delim: char, from: nat, at: seq<(nat, nat)>) {
    forall i: nat, j: nat :: from <= i && IsMaximalRun(s, delim, i, j) ==> (i, j) in at
  }

  ghost predicate ExactlyTheRuns(s: string, delim: char, runs: seq<string>, at: seq<(nat, nat)>) {
    Located(s, delim, 0, runs, at) && Complete(s, delim, 0, at)
  }

  /** The pieces are exactly the maximal delimiter-free runs, each once and from left to right. */
  lemma RunsAreMaximal(s: string, delim: char) returns (at: seq<(nat, nat)>)
    ensures ExactlyTheRuns(s, delim, Runs(s, delim), at)
  {
    at := RunsFromAreMaximal(s, delim, 0);
  }

  lemma {:induction false} RunsFromAreMaximal(s: string, delim: char, from: nat) returns (at: seq<(nat, nat)>)
    requires from <= |s| && (from == 0 || from == |s| || s[from - 1] == delim || s[from] == delim)
    ensures Located(s, delim, from, RunsFrom(s, delim, from), at) && Complete(s, delim, from, at)
    decreases |s| - from
  {
    if from == |s| {
      at := [];
    } else if s[from] == delim {
      at := RunsFromAreMaximal(s, delim, from + 1);
      DelimiterSkipped(s, delim, from, RunsFrom(s, delim, from), at);
    } else {
      var end := Scan(s, delim, from + 1);
      var rest := RunsFromAreMaximal(s, delim, end);
      at := [(from, end)] + rest;
      assert IsMaximalRun(s, delim, from, end);
      LocatedPrepend(s, delim, from, end, RunsFrom(s, delim, end), rest);
      CompletePrepend(s, delim, from, end, rest);
    }
  }

  /** No run starts at a delimiter. */
  lemma DelimiterSkipped(s: string, delim: char, from: nat, runs: seq<string>, at: seq<(nat, nat)>)
    requires from < |s| && s[from] == delim
    requires Located(s, delim, from + 1, runs, at) && Complete(s, delim, from + 1, at)
    ensures Located(s, delim, from, runs, at) && Complete(s, delim, from, at)
  {
    forall i: nat, j: nat | from <= i && IsMaximalRun(s, delim, i, j) ensures (i, j) in at {
      assert s[i] != delim;
    }
  }

  lemma LocatedPrepend(s: string, delim: char, from: nat, end: nat, runs: seq<string>, rest: seq<(nat, nat)>)
    requires IsMaximalRun(s, delim, from, end) && Located(s, delim, end, runs, rest)
    ensures Located(s, delim, from, [s[from..end]] + runs, [(from, end)] + rest)
  {
    forall k | 0 <= k < |rest| ensures end < rest[k].0 {
      assert s[rest[k].0] != delim;
    }
  }

  lemma CompletePrepend(s: string, delim: char, from: nat, end: nat, rest: seq<(nat, nat)>)
    requires IsMaximalRun(s, delim, from, end) && Complete(s, delim, end, rest)
    ensures Complete(s, delim, from, [(from, end)] + rest)
  {
    forall i: nat, j: nat | from <= i && IsMaximalRun(s, delim, i, j) ensures (i, j) in [(from, end)] + rest {
      if i < end {
        SameRun(s, delim, from, end, i, j);
      }
    }
  }

  lemma SameRun(s: string, delim: char, i: nat, j: nat, k: nat, l: nat)
    requires IsMaximalRun(s, delim, i, j) && IsMaximalRun(s, delim, k, l) && i <= k < j
    ensures i == k && j == l
  {
  }

  /** No position: the end of a search. */
  const NPOS := -1

  /** The first index from `pos` on that holds `delim`, or holds another character when `not`. */
  method Find(s: string, delim: char, pos: int, not: bool) returns (i: int)
    requires pos == NPOS || 0 <= pos <= |s|
    ensures i == NPOS || (0 <= pos <= i < |s| && (s[i] == delim) != not)
    ensures 0 <= pos ==> forall k :: pos <= k < (if i == NPOS then |s| else i) ==> (s[k] == delim) == not
  {
    if pos == NPOS {
      return NPOS;
    }
    i := pos;
    while i < |s|
      invariant pos <= i <= |s|
      invariant forall k :: pos <= k < i ==> (s[k] == delim) == not
    {
      if (s[i] == delim) != not {
        return;
      }
      i := i + 1;
    }
    i := NPOS;
  }

  lemma {:induction false} RunsSkip(s: string, delim: char, from: nat, to: nat)
    requires from <= to <= |s| && forall k :: from <= k < to ==> s[k] == delim
    ensures RunsFrom(s, delim, from) == RunsFrom(s, delim, to)
    decreases |s| - from
  {
    if from == to {
    } else {
      RunsSkip(s, delim, from + 1, to);
    }
  }

  lemma RunsStep(s: string, delim: char, from: nat, to: nat)
    requires from < to <= |s| && (forall k :: from <= k < to ==> s[k] != delim) && (to == |s| || s[to] == delim)
    ensures RunsFrom(s, delim, from) == [s[from..to]] + RunsFrom(s, delim, to)
  {
    assert Scan(s, delim, from + 1) == to;
  }

  /** What is still to come when the next piece starts at `lastPos`. */
  ghost function Remaining(s: string, delim: char, lastPos: int): seq<string>
    requires lastPos == NPOS || 0 <= lastPos <= |s|
  {
    if lastPos == NPOS then [] else RunsFrom(s, delim, lastPos)
  }

  lemma SplitStep(s: string, delim: char, tokens: seq<string>, lastPos: nat, end: nat, next: int)
    requires lastPos < end <= |s| && (end == |s| || s[end] == delim)
    requires forall k :: lastPos <= k < end ==> s[k] != delim
    requires next == NPOS || end <= next < |s|
    requires forall k :: end <= k < (if next == NPOS then |s| else next) ==> s[k] == delim
    ensures tokens + Remaining(s, delim, lastPos) == (tokens + [s[lastPos..end]]) + Remaining(s, delim, next)
  {
    RunsStep(s, delim, lastPos, end);
    RunsSkip(s, delim, end, if next == NPOS then |s| else next);
    ConcatAssociates(tokens, [s[lastPos..end]], Remaining(s, delim, next));
  }

  lemma SplitStarts(s: string, delim: char, first: int)
    requires first == NPOS || 0 <= first < |s|
    requires forall k :: 0 <= k < (if first == NPOS then |s| else first) ==> s[k] == delim
    ensures [] + Remaining(s, delim, first) == Runs(s, delim)
  {
    RunsSkip(s, delim, 0, if first == NPOS then |s| else first);
  }

  lemma SplitEnds(s: string, delim: char, tokens: seq<string>)
    ensures tokens + Remaining(s, delim, NPOS) == tokens
  {
  }

  method Split(s: string, delim: char) returns (tokens: seq<string>)
    ensures tokens == Runs(s, delim)
  {
    hide Runs, RunsFrom, Remaining;
    tokens := [];
    var lastPos := Find(s, delim, 0, true);
    var pos := Find(s, delim, lastPos, false);
    SplitStarts(s, delim, lastPos);
    while lastPos != NPOS
      invariant lastPos == NPOS || (0 <= lastPos < |s| && s[lastPos] != delim)
      invariant pos == NPOS || (0 <= lastPos < pos < |s| && s[pos] == delim)
      invariant lastPos != NPOS ==>
                  forall k :: lastPos <= k < (if pos == NPOS then |s| else pos) ==> s[k] != delim
      invariant tokens + Remaining(s, delim, lastPos) == Runs(s, delim)
      decreases if lastPos == NPOS then 0 else |s| - lastPos
    {
      var end := if pos == NPOS then |s| else pos;
      var next := Find(s, delim, pos, true);
      SplitStep(s, delim, tokens, lastPos, end, next);
      tokens := tokens + [s[lastPos..end]];
      lastPos := next;
      pos := Find(s, delim, lastPos, false);
    }
    SplitEnds(s, delim, tokens);
  }

  /** Maximal runs, from left to right. */
  ghost predicate Spans(s: string, delim: char, at: seq<(nat, nat)>) {
    && (forall i :: 0 <= i < |at| ==> IsMaximalRun(s, delim, at[i].0, at[i].1))
    && (forall i, j :: 0 <= i < j < |at| ==> at[i].1 < at[j].0)
  }

  ghost predicate SameMembers(a: seq<(nat, nat)>, b: seq<(nat, nat)>) {
    forall x :: x in a <==> x in b
  }

  lemma SameFirst(s: string, delim: char, a: seq<(nat, nat)>, b: seq<(nat, nat)>)
    requires Spans(s, delim, a) && Spans(s, delim, b) && SameMembers(a, b)
    ensures a == [] <==> b == []
    ensures a != [] && b != [] ==> a[0] == b[0]
  {
    if a != [] {
      assert a[0] in a;
      var l :| 0 <= l < |b| && b[l] == a[0];
      if b != [] {
        assert b[0] in b;
        var k :| 0 <= k < |a| && a[k] == b[0];
      }
    } else if b != [] {
      FirstIsIn(b);
    }
  }

  lemma FirstIsIn(b: seq<(nat, nat)>)
    requires b != []
    ensures b[0] in b
  {
  }

  lemma SpansRest(s: string, delim: char, a: seq<(nat, nat)>, b: seq<(nat, nat)>)
    requires Spans(s, delim, a) && Spans(s, delim, b) && SameMembers(a, b) && a != [] && b != [] && a[0] == b[0]
    ensures Spans(s, delim, a[1..]) && Spans(s, delim, b[1..]) && SameMembers(a[1..], b[1..])
  {
    forall x ensures x in a[1..] <==> x in b[1..] {
      OthersStay(a, b, x);
    }
  }

  lemma OthersStay(a: seq<(nat, nat)>, b: seq<(nat, nat)>, x: (nat, nat))
    requires a != [] && b != [] && a[0] == b[0] && (x in a <==> x in b)
    requires forall i :: 0 < i < |a| ==> a[i] != a[0]
    requires forall i :: 0 < i < |b| ==> b[i] != b[0]
    ensures x in a[1..] <==> x in b[1..]
  {
    assert a == [a[0]] + a[1..] && b == [b[0]] + b[1..];
  }

  /** The maximal runs of a text are what they are: whoever finds them all, in order, finds the same. */
  lemma {:induction false} RunsAreUnique(s: string, delim: char, a: seq<(nat, nat)>, b: seq<(nat, nat)>)
    requires Spans(s, delim, a) && Spans(s, delim, b) && SameMembers(a, b)
    ensures a == b
    decreases |a|
  {
    hide Spans, SameMembers;
    SameFirst(s, delim, a, b);
    if a == [] {
    } else {
      SpansRest(s, delim, a, b);
      RunsAreUnique(s, delim, a[1..], b[1..]);
      assert a == [a[0]] + a[1..] && b == [b[0]] + b[1..];
    }
  }

  lemma SpansOf(s: string, delim: char, runs: seq<string>, at: seq<(nat, nat)>, x: (nat, nat))
    requires ExactlyTheRuns(s, delim, runs, at)
    ensures x in at <==> IsMaximalRun(s, delim, x.0, x.1)
  {
  }

  lemma RunsByAnyone(s: string, delim: char, runs: seq<string>, at: seq<(nat, nat)>)
    requires ExactlyTheRuns(s, delim, runs, at)
    ensures runs == Runs(s, delim)
  {
    var own := RunsAreMaximal(s, delim);
    forall x ensures x in at <==> x in own {
      SpansOf(s, delim, runs, at, x);
      SpansOf(s, delim, Runs(s, delim), own, x);
    }
    RunsAreUnique(s, delim, at, own);
  }

  // ----- trim -----

  predicate IsSpace(c: char) {
    c == ' ' || '\t' <= c <= '\r'
  }

  /** Space, tab, line feed, vertical tab, form feed and carriage return. */
  lemma SpaceIsOneOfSix(c: char)
    ensures IsSpace(c) <==> c as int in {32, 9, 10, 11, 12, 13}
  {
  }

  ghost predicate AllSpace(s: string) {
    forall k :: 0 <= k < |s| ==> IsSpace(s[k])
  }

  ghost predicate IsTrimmed(s: string) {
    s == "" || (!IsSpace(s[0]) && !IsSpace(s[|s| - 1]))
  }

  /** The first index from `from` on without white space, or the length. */
  function SkipFront(s: string, from: nat): (n: nat)
    requires from <= |s|
    ensures from <= n <= |s| && (forall k :: from <= k < n ==> IsSpace(s[k])) && (n < |s| ==> !IsSpace(s[n]))
    decreases |s| - from
  {
    if from == |s| || !IsSpace(s[from]) then from else SkipFront(s, from + 1)
  }

  /** The last index up to `to` after a character that is no white space, or 0. */
  function SkipBack(s: string, to: nat): (n: nat)
    requires to <= |s|
    ensures n <= to && (forall k :: n <= k < to ==> IsSpace(s[k])) && (n > 0 ==> !IsSpace(s[n - 1]))
  {
    if to == 0 || !IsSpace(s[to - 1]) then to else SkipBack(s, to - 1)
  }

  function Trim(s: string): string {
    var i, j := SkipFront(s, 0), SkipBack(s, |s|);
    if i < j then s[i..j] else ""
  }

  /** Trimming cuts off white space and nothing else, and as much of it as there is. */
  lemma TrimExact(s: string) returns (i: nat, j: nat)
    ensures i <= j <= |s| && Trim(s) == s[i..j]
    ensures AllSpace(s[..i]) && AllSpace(s[j..]) && IsTrimmed(s[i..j])
  {
    i, j := SkipFront(s, 0), SkipBack(s, |s|);
    if i >= j {
      i, j := |s|, |s|;
    }
  }

  /** Only one trimmed text is left when white space is taken off. */
  lemma TrimUndoesPadding(a: string, t: string, b: string)
    requires AllSpace(a) && AllSpace(b) && IsTrimmed(t)
    ensures Trim(a + t + b) == t
  {
    var s := a + t + b;
    assert forall k :: 0 <= k < |a| ==> s[k] == a[k];
    assert forall k :: |a| + |t| <= k < |s| ==> s[k] == b[k - |a| - |t|];
    if t != "" {
      assert s[|a|] == t[0] && s[|a| + |t| - 1] == t[|t| - 1];
      assert SkipFront(s, 0) == |a|;
      assert SkipBack(s, |s|) == |a| + |t|;
    }
  }

  // ----- the file -----

  /** getline reads into a buffer for 100 characters, the last of them the terminating NUL. */
  const LINE_ROOM := 99

  /** The lines of a file; the last one is what follows the last newline, even if it is empty. */
  function Lines(content: string): seq<string>
    decreases |content|
  {
    var n := Scan(content, '\n', 0);
    if n == |content| then [content] else [content[..n]] + Lines(content[n + 1..])
  }

  function Joined(lines: seq<string>): string
    decreases |lines|
  {
    if lines == [] then "" else if |lines| == 1 then lines[0] else lines[0] + "\n" + Joined(lines[1..])
  }

  lemma JoinedFirst(first: string, rest: seq<string>)
    requires rest != []
    ensures Joined([first] + rest) == first + "\n" + Joined(rest)
  {
    assert ([first] + rest)[1..] == rest;
  }

  lemma SplitAtNewline(content: string, n: nat)
    requires n == Scan(content, '\n', 0) < |content|
    ensures content == content[..n] + "\n" + content[n + 1..] && '\n' !in content[..n]
  {
  }

  /** The lines, with newlines between them and none in them, are the file. */
  lemma {:induction false} LinesAreTheFile(content: string)
    ensures Lines(content) != [] && Joined(Lines(content)) == content
    ensures forall k :: 0 <= k < |Lines(content)| ==> '\n' !in Lines(content)[k]
    decreases |content|
  {
    var n := Scan(content, '\n', 0);
    if n == |content| {
    } else {
      var rest := Lines(content[n + 1..]);
      assert Lines(content) == [content[..n]] + rest;
      hide Lines, Joined, Scan;
      LinesAreTheFile(content[n + 1..]);
      JoinedFirst(content[..n], rest);
      SplitAtNewline(content, n);
    }
  }

  /** `whole`: the rest can be read to its end. */
  datatype Stream = Stream(rest: string, whole: bool, eof: bool, fail: bool)

  /** std::istream::getline: a line that does not fit leaves the rest of it behind and fails; a stream that
      cannot be read on fails without having ended, and one that has failed or ended gives nothing and fails. */
  function GetLine(st: Stream): (string, Stream) {
    if st.eof || st.fail then ("", st.(fail := true))
    else
      var n := Scan(st.rest, '\n', 0);
      if n > LINE_ROOM then (st.rest[..LINE_ROOM], Stream(st.rest[LINE_ROOM..], st.whole, false, true))
      else if n < |st.rest| then (st.rest[..n], Stream(st.rest[n + 1..], st.whole, false, false))
      else (st.rest, Stream("", st.whole, st.whole, !st.whole || n == 0))
  }

  /** The text up to the first NUL: what a C string holds. */
  function CString(s: string): string {
    s[..Scan(s, '\0', 0)]
  }

  lemma CStringEndsAtNul(s: string)
    ensures CString(s) <= s && '\0' !in CString(s) && (CString(s) == s || s[|CString(s)|] == '\0')
  {
  }

  datatype Entry = NoEntry | Entry(key: string, value: string)

  function EntryOf(line: string): Entry {
    var tokens := Runs(CString(line), '=');
    if |tokens| == 2 then Entry(Trim(tokens[0]), Trim(tokens[1])) else NoEntry
  }

  ghost predicate IsEntryFor(line: string, key: string) {
    EntryOf(line).Entry? && EntryOf(line).key == key
  }

  function Add(items: map<string, string>, line: string): map<string, string> {
    match EntryOf(line)
    case NoEntry => items
    case Entry(key, value) => if key in items then items else items[key := value]
  }

  function AddAll(items: map<string, string>, lines: seq<string>): map<string, string>
    decreases |lines|
  {
    if lines == [] then items else AddAll(Add(items, lines[0]), lines[1..])
  }

  function ValueOf(items: map<string, string>, key: string): string {
    if key in items then items[key] else ""
  }

  ghost predicate AllShort(lines: seq<string>) {
    forall k :: 0 <= k < |lines| ==> |lines[k]| < 100
  }

  ghost predicate ShortLines(content: string) {
    AllShort(Lines(content))
  }

  lemma FirstLine(first: string, rest: seq<string>, items: map<string, string>)
    ensures AllShort([first] + rest) <==> |first| < 100 && AllShort(rest)
    ensures AddAll(items, [first] + rest) == AddAll(Add(items, first), rest)
  {
    var lines := [first] + rest;
    assert lines[1..] == rest && lines[0] == first;
    assert forall k :: 0 <= k < |rest| ==> rest[k] == lines[k + 1];
  }

  lemma OnlyLine(line: string, items: map<string, string>)
    ensures AllShort([line]) <==> |line| < 100
    ensures AddAll(items, [line]) == Add(items, line)
  {
    assert [line][0] == line && [line][1..] == [];
    assert AddAll(Add(items, line), []) == Add(items, line);
  }

  /** `Hangs`: the loop of Load goes on forever. */
  datatype LoadResult = OpenFailed | Loaded | Hangs

  /** A stream that has failed before its end never gets to the end, and each further turn of the loop reads an
      empty line, which is no entry. */
  lemma FailedStreamHangs(st: Stream, items: map<string, string>)
    requires st.fail && !st.eof
    ensures GetLine(st).1 == st && Add(items, GetLine(st).0) == items
  {
  }

  /** A file that cannot be opened, or one that can be read up to a point: to its end, or to where reading fails. */
  datatype File = Unreadable | Readable(content: string, whole: bool)

  class Config {
    var items: map<string, string>

    constructor ()
      ensures items == map[]
    {
      items := map[];
    }

    /** Loads a file; what is known already stays. It comes to an end exactly when no line is too long and
        no read fails. */
    method Load(file: File) returns (r: LoadResult)
      modifies this
      ensures r.OpenFailed? <==> file.Unreadable?
      ensures r.OpenFailed? ==> items == old(items)
      ensures r.Loaded? <==> file.Readable? && file.whole && ShortLines(file.content)
      ensures r.Loaded? ==> items == AddAll(old(items), Lines(file.content))
    {
      if file.Unreadable? {
        return OpenFailed;
      }
      var st := Stream(file.content, file.whole, false, false);
      while !st.eof
        invariant st.whole == file.whole
        invariant if st.eof then
                    file.whole && ShortLines(file.content) && items == AddAll(old(items), Lines(file.content))
                  else Underway(st, items, old(items), file.content)
        decreases !st.eof, |st.rest|
      {
        TurnOfLoad(st, items, old(items), file.content);
        var (line, next) := GetLine(st);
        AddLine(line);
        st := next;
        if st.fail && !st.eof {
          return Hangs;
        }
      }
      r := Loaded;
    }

    /** One turn of the loop: a line with exactly two pieces is an entry, unless its key is known. */
    method AddLine(line: string)
      modifies this
      ensures items == Add(old(items), line)
      ensures forall runs: seq<string>, at: seq<(nat, nat)> :: ExactlyTheRuns(CString(line), '=', runs, at) ==>
                items ==
                if |runs| == 2 && Trim(runs[0]) !in old(items) then old(items)[Trim(runs[0]) := Trim(runs[1])]
                else old(items)
    {
      AddByAnyRuns(items, line);
      var tokens := Split(CString(line), '=');
      if |tokens| == 2 {
        var key := Trim(tokens[0]);
        if key !in items {
          items := items[key := Trim(tokens[1])];
        }
      }
    }

    method GetValue(key: string) returns (ans: string)
      ensures key in items ==> ans == items[key]
      ensures key !in items ==> ans == ""
    {
      ans := if key in items then items[key] else "";
    }
  }

  /** An entry is a line with exactly two maximal runs between its '=' signs, whoever finds them: the trimmed first
      one is its key, the trimmed second one its value, and a known key stays. Any other line changes nothing. */
  lemma AddExactly(items: map<string, string>, line: string, runs: seq<string>, at: seq<(nat, nat)>)
    requires ExactlyTheRuns(CString(line), '=', runs, at)
    ensures Add(items, line) ==
            if |runs| == 2 && Trim(runs[0]) !in items then items[Trim(runs[0]) := Trim(runs[1])] else items
  {
    RunsByAnyone(CString(line), '=', runs, at);
  }

  lemma AddByAnyRuns(items: map<string, string>, line: string)
    ensures forall runs: seq<string>, at: seq<(nat, nat)> :: ExactlyTheRuns(CString(line), '=', runs, at) ==>
              Add(items, line) ==
              if |runs| == 2 && Trim(runs[0]) !in items then items[Trim(runs[0]) := Trim(runs[1])] else items
  {
    forall runs: seq<string>, at: seq<(nat, nat)> | ExactlyTheRuns(CString(line), '=', runs, at)
      ensures Add(items, line) ==
              if |runs| == 2 && Trim(runs[0]) !in items then items[Trim(runs[0]) := Trim(runs[1])] else items
    {
      AddExactly(items, line, runs, at);
    }
  }

  lemma LinesStep(content: string, items: map<string, string>)
    ensures var n := Scan(content, '\n', 0);
            && (ShortLines(content) <==> n < 100 && (n < |content| ==> ShortLines(content[n + 1..])))
            && AddAll(items, Lines(content)) ==
               if n == |content| then Add(items, content) else AddAll(Add(items, content[..n]), Lines(content[n + 1..]))
  {
    hide Scan, AddAll, Add, AllShort;
    var n := Scan(content, '\n', 0);
    if n < |content| {
      FirstLine(content[..n], Lines(content[n + 1..]), items);
    } else {
      OnlyLine(content, items);
    }
  }

  /** What is left of the file, added to what is known by now, comes to the whole file. */
  ghost predicate Underway(st: Stream, items: map<string, string>, start: map<string, string>, content: string) {
    && !st.fail
    && AddAll(items, Lines(st.rest)) == AddAll(start, Lines(content))
    && (ShortLines(st.rest) <==> ShortLines(content))
  }

  lemma TurnOfLoad(st: Stream, items: map<string, string>, start: map<string, string>, content: string)
    requires !st.eof && Underway(st, items, start, content)
    ensures var (line, next) := GetLine(st);
            && next.whole == st.whole
            && if next.eof then
                 st.whole && ShortLines(content) && Add(items, line) == AddAll(start, Lines(content))
               else if next.fail then !st.whole || !ShortLines(content)
               else Underway(next, Add(items, line), start, content) && |next.rest| < |st.rest|
  {
    hide Scan, Lines, ShortLines, AddAll, Add;
    LinesStep(st.rest, items);
  }

  // ----- what a file means -----

  /** A key known before keeps its value. */
  lemma {:induction false} KnownKeyStays(items: map<string, string>, lines: seq<string>, key: string)
    requires key in items
    ensures key in AddAll(items, lines) && AddAll(items, lines)[key] == items[key]
    decreases |lines|
  {
    if lines == [] {
    } else {
      KnownKeyStays(Add(items, lines[0]), lines[1..], key);
    }
  }

  /** Of several lines for one key the first well-formed one counts. */
  lemma {:induction false} FirstEntryWins(items: map<string, string>, lines: seq<string>, key: string, i: nat)
    requires key !in items && i < |lines| && IsEntryFor(lines[i], key)
    requires forall j :: 0 <= j < i ==> !IsEntryFor(lines[j], key)
    ensures key in AddAll(items, lines) && AddAll(items, lines)[key] == EntryOf(lines[i]).value
    decreases |lines|
  {
    var next := Add(items, lines[0]);
    if i == 0 {
      assert key in next && next[key] == EntryOf(lines[0]).value;
      KnownKeyStays(next, lines[1..], key);
    } else {
      assert !IsEntryFor(lines[0], key);
      FirstEntryWins(next, lines[1..], key, i - 1);
    }
  }

  /** A key with no line of its own does not come out of nowhere. */
  lemma {:induction false} OnlyEntriesLoad(items: map<string, string>, lines: seq<string>, key: string)
    requires key !in items && forall i :: 0 <= i < |lines| ==> !IsEntryFor(lines[i], key)
    ensures key !in AddAll(items, lines)
    decreases |lines|
  {
    if lines == [] {
    } else {
      assert !IsEntryFor(lines[0], key);
      OnlyEntriesLoad(Add(items, lines[0]), lines[1..], key);
    }
  }

  // ----- printing and loading -----

  /** A text that can stand on one side of an entry. */
  ghost predicate Plain(s: string) {
    IsTrimmed(s) && forall k :: 0 <= k < |s| ==> s[k] != '=' && s[k] != '\n' && s[k] != '\0'
  }

  function PrintLine(key: string, value: string): string {
    key + " = " + value
  }

  function Print(pairs: seq<(string, string)>): string {
    if pairs == [] then "" else PrintLine(pairs[0].0, pairs[0].1) + "\n" + Print(pairs[1..])
  }

  ghost predicate Printable(pairs: seq<(string, string)>) {
    && (forall i :: 0 <= i < |pairs| ==>
          Plain(pairs[i].0) && Plain(pairs[i].1) && |PrintLine(pairs[i].0, pairs[i].1)| < 100)
    && (forall i, j :: 0 <= i < j < |pairs| ==> pairs[i].0 != pairs[j].0)
  }

  lemma PrintedLineRuns(key: string, value: string)
    requires Plain(key) && Plain(value)
    ensures Runs(PrintLine(key, value), '=') == [key + " ", " " + value]
  {
    var line := PrintLine(key, value);
    var cut := |key| + 1;
    assert line[cut] == '=' && line[0..cut] == key + " " && line[cut + 1..|line|] == " " + value;
    RunsStep(line, '=', 0, cut);
    RunsSkip(line, '=', cut, cut + 1);
    RunsStep(line, '=', cut + 1, |line|);
  }

  lemma PrintedLineLoads(key: string, value: string)
    requires Plain(key) && Plain(value)
    ensures EntryOf(PrintLine(key, value)) == Entry(key, value)
  {
    var line := PrintLine(key, value);
    PrintedLineRuns(key, value);
    assert Scan(line, '\0', 0) == |line|;
    assert CString(line) == line;
    TrimUndoesPadding("", key, " ");
    assert "" + key + " " == key + " ";
    TrimUndoesPadding(" ", value, "");
    assert " " + value + "" == " " + value;
  }

  lemma FirstPrintedLine(line: string, rest: string)
    requires '\n' !in line
    ensures Scan(line + "\n" + rest, '\n', 0) == |line|
    ensures Lines(line + "\n" + rest) == [line] + Lines(rest)
  {
    var content := line + "\n" + rest;
    assert content[|line|] == '\n' && forall k :: 0 <= k < |line| ==> content[k] == line[k];
    assert content[..|line|] == line && content[|line| + 1..] == rest;
  }

  function Insert(items: map<string, string>, pairs: seq<(string, string)>): map<string, string>
    decreases |pairs|
  {
    if pairs == [] then items else Insert(items[pairs[0].0 := pairs[0].1], pairs[1..])
  }

  lemma PrintedFileStep(line: string, rest: string, items: map<string, string>)
    requires '\n' !in line && |line| < 100
    ensures ShortLines(line + "\n" + rest) <==> ShortLines(rest)
    ensures AddAll(items, Lines(line + "\n" + rest)) == AddAll(Add(items, line), Lines(rest))
  {
    var content := line + "\n" + rest;
    FirstPrintedLine(line, rest);
    assert content[..|line|] == line && content[|line| + 1..] == rest;
    LinesStep(content, items);
  }

  lemma {:induction false} PrintedFileLoads(pairs: seq<(string, string)>, items: map<string, string>)
    requires Printable(pairs) && forall i :: 0 <= i < |pairs| ==> pairs[i].0 !in items
    ensures ShortLines(Print(pairs)) && AddAll(items, Lines(Print(pairs))) == Insert(items, pairs)
    decreases |pairs|
  {
    if pairs == [] {
      LinesStep("", items);
      assert Add(items, "") == items by { assert Runs("", '=') == []; }
    } else {
      var rest := pairs[1..];
      assert forall i :: 0 <= i < |rest| ==> rest[i] == pairs[i + 1];
      PrintedLineLoads(pairs[0].0, pairs[0].1);
      PrintedFileStep(PrintLine(pairs[0].0, pairs[0].1), Print(rest), items);
      PrintedFileLoads(rest, items[pairs[0].0 := pairs[0].1]);
    }
  }

  lemma {:induction false} InsertedPairs(items: map<string, string>, pairs: seq<(string, string)>)
    requires forall i, j :: 0 <= i < j < |pairs| ==> pairs[i].0 != pairs[j].0
    ensures var after := Insert(items, pairs);
            && (forall i :: 0 <= i < |pairs| ==> pairs[i].0 in after && after[pairs[i].0] == pairs[i].1)
            && (forall key :: (forall i :: 0 <= i < |pairs| ==> pairs[i].0 != key) ==>
                  (key in after <==> key in items) && (key in items ==> after[key] == items[key]))
    decreases |pairs|
  {
    if pairs == [] {
    } else {
      var rest := pairs[1..];
      assert forall i :: 0 <= i < |rest| ==> rest[i] == pairs[i + 1];
      assert forall i :: 0 < i < |pairs| ==> pairs[i] == rest[i - 1];
      InsertedPairs(items[pairs[0].0 := pairs[0].1], rest);
    }
  }

  /** Every pair is found, and there are no other keys. */
  ghost predicate HoldsJust(items: map<string, string>, pairs: seq<(string, string)>) {
    && (forall i :: 0 <= i < |pairs| ==> pairs[i].0 in items && ValueOf(items, pairs[i].0) == pairs[i].1)
    && (forall key :: key in items ==> exists i :: 0 <= i < |pairs| && pairs[i].0 == key)
  }

  /** Printing entries and loading the result into an empty configuration gives every pair back, and nothing for
      any other key. */
  lemma PrintLoadRoundTrip(pairs: seq<(string, string)>)
    requires Printable(pairs)
    ensures ShortLines(Print(pairs)) && HoldsJust(AddAll(map[], Lines(Print(pairs))), pairs)
  {
    PrintedFileLoads(pairs, map[]);
    InsertedPairs(map[], pairs);
  }
}

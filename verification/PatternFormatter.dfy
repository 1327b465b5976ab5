/** The pattern formatter of include/spdlog/pattern_formatter-inl.h: the compiling scanner and the two caches of
    broken-down time. */
module PatternFormatting {
  import opened Arithmetic
  import opened Decimal
  import opened Padding
  import opened PatternCompiler
  import opened SeqFacts

  // ----- time -----

  /** Broken-down time; `year` counts from 1900 and `mon` from 0. */
  datatype Tm = Tm(year: int, mon: int, mday: int, hour: int, min: int, sec: int, wday: int)

  /** What memset leaves in a new formatter. */
  const ZERO_TM := Tm(0, 0, 0, 0, 0, 0, 0)

  const NANOS: nat := 1_000_000_000
  const NANOS_PER_MILLI: nat := 1_000_000

  /** duration_cast to a coarser unit: toward zero. */
  function Truncated(n: int, unit: nat): int
    requires unit > 0
  {
    if n >= 0 then n / unit else -((-n) / unit)
  }

  /** The whole seconds since the epoch. */
  function Seconds(time: int): int {
    Truncated(time, NANOS)
  }

  /** The milliseconds of the current second, as a 32-bit unsigned number. */
  function Millis(time: int): nat {
    (Truncated(time, NANOS_PER_MILLI) - 1000 * Seconds(time)) % 0x1_0000_0000
  }

  /** `s` whole seconds have passed at `time` nanoseconds; before the epoch the last one is not whole yet. */
  ghost predicate WholeSeconds(time: int, s: int) {
    if time >= 0 then s * 1_000_000_000 <= time < (s + 1) * 1_000_000_000
    else (s - 1) * 1_000_000_000 < time <= s * 1_000_000_000
  }

  lemma SecondsAreWhole(time: int, s: int)
    ensures WholeSeconds(time, s) <==> s == Seconds(time)
  {
  }

  lemma OnlyOneSecond(time: int)
    ensures forall s :: WholeSeconds(time, s) ==> s == Seconds(time)
  {
    forall s | WholeSeconds(time, s) ensures s == Seconds(time) {
      SecondsAreWhole(time, s);
    }
  }

  /** The milliseconds of the current second; before the epoch they are negative, and wrap round 32 bits. */
  lemma MillisAreOfTheSecond(time: int)
    ensures time >= 0 ==>
              var s, ms := Seconds(time), Millis(time);
              ms < 1000 && s * 1_000_000_000 + ms * 1_000_000 <= time < s * 1_000_000_000 + (ms + 1) * 1_000_000
    ensures time < 0 ==>
              exists k: nat :: k < 1000 && Millis(time) == (4294967296 - k) % 4294967296
                && Seconds(time) * 1_000_000_000 - (k + 1) * 1_000_000 < time
                && time <= Seconds(time) * 1_000_000_000 - k * 1_000_000
  {
    if time >= 0 {
      MillisAfterEpoch(time);
    } else {
      var k := MillisBeforeEpoch(time);
    }
  }

  lemma MillisAfterEpoch(time: nat)
    ensures var s, ms := Seconds(time), Millis(time);
            ms < 1000 && s * 1_000_000_000 + ms * 1_000_000 <= time < s * 1_000_000_000 + (ms + 1) * 1_000_000
  {
    var s, all := time / 1_000_000_000, time / 1_000_000;
    assert 0 <= all - 1000 * s < 1000;
  }

  lemma MillisBeforeEpoch(time: int) returns (k: nat)
    requires time < 0
    ensures k < 1000 && Millis(time) == (4294967296 - k) % 4294967296
    ensures Seconds(time) * 1_000_000_000 - (k + 1) * 1_000_000 < time <= Seconds(time) * 1_000_000_000 - k * 1_000_000
  {
    var s, all := -time / 1_000_000_000, -time / 1_000_000;
    assert 0 <= all - 1000 * s < 1000;
    k := all - 1000 * s;
  }

  function SignedDigits(n: int): string {
    if n < 0 then "-" + Digits(-n) else Digits(n)
  }

  /** At least two characters. */
  function Pad2(n: int): string {
    if 0 <= n < 100 then [DigitChar(n / 10), DigitChar(n % 10)] else SignedDigits(n)
  }

  function Pad3(n: nat): string {
    if n < 1000 then [DigitChar(n / 100), DigitChar(n / 10 % 10), DigitChar(n % 10)] else Digits(n)
  }

  /** The part of the full format that stays the same for a second. */
  function DateText(tm: Tm): (s: string)
    ensures s != ""
  {
    "[" + SignedDigits(tm.year + 1900) + "-" + Pad2(tm.mon + 1) + "-" + Pad2(tm.mday) + " "
    + Pad2(tm.hour) + ":" + Pad2(tm.min) + ":" + Pad2(tm.sec) + "."
  }

  // ----- messages -----

  datatype Source = NoSource | At(shortFile: string, line: nat)

  datatype Message = Message(time: int, loggerName: string, level: string, source: Source, payload: string)

  function Bracketed(s: string): string {
    if s == "" then "" else "[" + s + "] "
  }

  function SourceText(source: Source): string {
    if source.NoSource? then "" else "[" + source.shortFile + ":" + Digits(source.line) + "] "
  }

  /** What is fixed for a formatter: how seconds are broken down, and the texts of fields and of user formatters,
      which may depend on the message and the time handed to them; `field` is for those fields that are not
      modelled. */
  datatype World = World(
    getTime: int -> Tm,
    field: (Message, Tm, char) -> FieldText,
    custom: (Message, Tm, char, PadInfo, Output) -> Output)

  /** The nanoseconds in the unit of an elapsed-time field. */
  function UnitOf(flag: char): (unit: nat)
    ensures unit > 0
  {
    match flag case 'u' => 1 case 'i' => 1_000 case 'o' => NANOS_PER_MILLI case _ => NANOS
  }

  /** The time passed, or none when the clock has gone back. */
  function ElapsedText(flag: char, time: int, previous: int): string {
    Digits(if previous < time then (time - previous) / UnitOf(flag) else 0)
  }

  /** The texts of the message's own fields and of the common time fields, with the lengths declared for them. */
  function FieldTextOf(world: World, msg: Message, tm: Tm, flag: char): FieldText {
    match flag
    case 'v' => Written(msg.payload, |msg.payload|)
    case 'n' => Written(msg.loggerName, |msg.loggerName|)
    case 'l' => Written(msg.level, |msg.level|)
    case 'Y' => Written(SignedDigits(tm.year + 1900), 4)
    case 'm' => Written(Pad2(tm.mon + 1), 2)
    case 'd' => Written(Pad2(tm.mday), 2)
    case 'H' => Written(Pad2(tm.hour), 2)
    case 'M' => Written(Pad2(tm.min), 2)
    case 'S' => Written(Pad2(tm.sec), 2)
    case 'e' => Written(Pad3(Millis(msg.time)), 3)
    case _ => world.field(msg, tm, flag)
  }

  /** One message to print, `previous` being the time of the message before. */
  function EnvOf(world: World, msg: Message, tm: Tm, previous: int): Env {
    Env(flag => FieldTextOf(world, msg, tm, flag),
        flag => ElapsedText(flag, msg.time, previous),
        DateText(tm),
        Pad3(Millis(msg.time)) + "] " + Bracketed(msg.loggerName) + "[",
        msg.level,
        "] " + SourceText(msg.source) + msg.payload,
        (flag, pad, out) => world.custom(msg, tm, flag, pad, out))
  }

  // ----- the cache of broken-down time -----

  datatype TimeCache = TimeCache(tm: Tm, secs: int)

  function Refresh(getTime: int -> Tm, cache: TimeCache, secs: int): TimeCache {
    if secs != cache.secs then TimeCache(getTime(secs), secs) else cache
  }

  /** The cache after messages of the given seconds. */
  ghost function RefreshAll(getTime: int -> Tm, secs: seq<int>): TimeCache {
    if secs == [] then TimeCache(ZERO_TM, 0)
    else Refresh(getTime, RefreshAll(getTime, secs[..|secs| - 1]), secs[|secs| - 1])
  }

  lemma {:induction false} CacheAfter(getTime: int -> Tm, secs: seq<int>)
    ensures var cache := RefreshAll(getTime, secs);
            if exists k :: 0 <= k < |secs| && secs[k] != 0
            then secs != [] && cache == TimeCache(getTime(secs[|secs| - 1]), secs[|secs| - 1])
            else cache == TimeCache(ZERO_TM, 0)
  {
    if secs == [] {
    } else {
      var front, last := secs[..|secs| - 1], secs[|secs| - 1];
      CacheAfter(getTime, front);
      assert forall k :: 0 <= k < |front| ==> secs[k] == front[k];
      if last != 0 {
        assert secs[|secs| - 1] != 0;
      }
    }
  }

  /** The time a message is printed with is its own if and only if this message or one before it lies outside
      second 0 of the epoch: until then the formatter takes the time it was made with, all zeros, for the time of
      second 0. */
  lemma CachedTimeIsRight(getTime: int -> Tm, secs: seq<int>)
    requires secs != [] && getTime(0).mday >= 1
    ensures RefreshAll(getTime, secs).tm == getTime(secs[|secs| - 1])
       <==> exists k :: 0 <= k < |secs| && secs[k] != 0
  {
    CacheAfter(getTime, secs);
    if forall k :: 0 <= k < |secs| ==> secs[k] == 0 {
      assert secs[|secs| - 1] == 0;
    }
  }

  // ----- the formatter -----

  class PatternFormatter {
    const world: World
    const eol: string
    var pattern: string
    var cache: TimeCache
    var formatters: seq<Formatter>
    var custom: set<char>
    /** When the formatters were made. */
    var start: int
    /** The time of the last message printed since then. */
    ghost var last: Since
    /** The seconds of the messages printed so far. */
    ghost var seen: seq<int>

    /** The formatters are those of the pattern up to what they keep; the cached time is the one the messages lead to,
        every date text kept by a full formatter is that of the cached time, and every elapsed-time field keeps the time
        of the last message. */
    ghost predicate Valid()
      reads this
    {
      && cache == RefreshAll(world.getTime, seen)
      && AllCurrent(formatters, |formatters|, cache)
      && AllSince(formatters, last)
      && Emptied(formatters) == Emptied(Compile(pattern, custom))
    }

    /** The time of the last message, or that of the making of the formatters. */
    ghost function Previous(): int
      reads this
    {
      TimeOf(last, start)
    }

    /** The formatters up to what the full ones keep. */
    ghost function Shape(): seq<Formatter>
      reads this
    {
      Emptied(formatters)
    }

    constructor (pattern: string, eol: string, custom: set<char>, world: World, now: int)
      ensures Valid() && this.pattern == pattern && this.eol == eol && this.custom == custom && this.world == world
      ensures formatters == Compile(pattern, custom) && seen == [] && Previous() == now
    {
      this.pattern, this.eol, this.custom, this.world := pattern, eol, custom, world;
      cache := TimeCache(ZERO_TM, 0);
      formatters := [];
      start, last := now, FromStart;
      seen := [];
      new;
      CompilePattern(pattern);
    }

    /** A new pattern starts with empty date texts and elapsed times from now; the cached time stays. */
    method SetPattern(pattern: string, now: int)
      requires Valid()
      modifies this`pattern, this`formatters, this`start, this`last
      ensures Valid() && this.pattern == pattern && formatters == Compile(pattern, custom) && Previous() == now
    {
      this.pattern := pattern;
      start, last := now, FromStart;
      CompilePattern(pattern);
    }

    /** Reads the digits at `first`, in size_t arithmetic. */
    static method ScanWidth(p: string, first: nat) returns (width: nat, it: nat)
      requires first < |p| && IsDigit(p[first])
      ensures it == first + DigitRun(p[first..]) && it <= |p|
      ensures width == Width(p[first..][..it - first])
    {
      ghost var t := p[first..];
      WidthOfFirst(t);
      width := DigitValue(p[first]);
      it := first + 1;
      while it < |p| && IsDigit(p[it])
        invariant first < it <= |p|
        invariant forall k :: 0 <= k < it - first ==> IsDigit(t[k])
        invariant width == Width(t[..it - first])
      {
        assert t[it - first] == p[it];
        WidthOfNext(t, it - first);
        width := (width * 10 + DigitValue(p[it])) % SIZE_VALUES;
        it := it + 1;
      }
      DigitRunIs(t, it - first);
    }

    /** Reads the width and the truncation mark at `start`, if there is a width. */
    static method ScanSpec(p: string, start: nat, side: Side) returns (pad: PadInfo, it: nat)
      requires start <= |p|
      ensures start <= it <= |p| && (pad, p[it..]) == WidthSpec(p[start..], side)
    {
      hide *;
      it := start;
      if it == |p| || !IsDigit(p[it]) {
        NoSpec(p, start, side);
        return NO_PADDING, it;
      }
      var width;
      width, it := ScanWidth(p, it);
      ScannedSpec(p, start, it, side);
      var truncate := false;
      if it < |p| && p[it] == '!' {
        truncate := true;
        it := it + 1;
      }
      pad := PadInfo(AtMost(width, MAX_WIDTH), side, truncate, true);
    }

    /** Reads the pad spec at `start` and stops behind it, never beyond the end of the pattern. */
    static method HandlePadspec(p: string, start: nat) returns (pad: PadInfo, it: nat)
      requires start <= |p|
      ensures start <= it <= |p| && (pad, p[it..]) == PadSpec(p[start..])
    {
      it := start;
      if it == |p| {
        return NO_PADDING, it;
      }
      var side := Left;
      if p[it] == '-' {
        side := Right;
        it := it + 1;
      } else if p[it] == '=' {
        side := Center;
        it := it + 1;
      }
      ScannedSide(p, start, it, side);
      pad, it := ScanSpec(p, it, side);
    }

    method HandleFlag(flag: char, pad: PadInfo)
      modifies this`formatters
      ensures formatters == old(formatters) + PatternCompiler.HandleFlag(flag, pad, custom)
    {
      if flag in custom {
        formatters := formatters + [Custom(flag, pad)];
      } else if flag == '+' {
        formatters := formatters + [Full(0, "")];
      } else if flag == '^' {
        formatters := formatters + [ColorStart];
      } else if flag == '$' {
        formatters := formatters + [ColorStop];
      } else if flag == '%' {
        formatters := formatters + [Ch('%')];
      } else if IsFieldFlag(flag) {
        formatters := formatters + [Field(flag, pad)];
      } else if IsElapsedFlag(flag) {
        formatters := formatters + [Elapsed(flag, pad, FromStart)];
      } else if !pad.truncate {
        formatters := formatters + [Chars(['%', flag])];
      } else {
        formatters := formatters + [Field(FUNCNAME, pad.(truncate := false))];
        formatters := formatters + [Chars([flag])];
      }
    }

    /** Reads the directive at `it`: `read` is the token it is, or nothing if it is cut off. */
    static method ReadDirective(p: string, it: nat)
      returns (pad: PadInfo, whole: bool, next: nat, ghost read: seq<Token>)
      requires it < |p| && p[it] == '%'
      ensures it < next <= |p| && Tokens(p[it..]) == read + Tokens(p[next..])
      ensures if whole then it + 1 < next && read == [Directive(pad, p[next - 1])] else next == |p| && read == []
    {
      hide *;
      var at;
      pad, at := HandlePadspec(p, it + 1);
      whole, next, read := at < |p|, at, [];
      if whole {
        next, read := at + 1, [Directive(pad, p[at])];
        FirstToken(p, it, pad, at);
      } else {
        CutOffToken(p, it, pad);
      }
    }

    /** One directive: what was put aside is flushed, and the directive handled, if it is not cut off. */
    method ScanDirective(p: string, it: nat, userChars: string) returns (next: nat, ghost read: seq<Token>)
      requires it < |p| && p[it] == '%'
      modifies this`formatters
      ensures it < next <= |p| && Tokens(p[it..]) == read + Tokens(p[next..])
      ensures IsHandled(old(formatters), formatters, read, userChars, custom) && (read == [] ==> next == |p|)
    {
      formatters := formatters + Flush(userChars);
      var pad, whole;
      pad, whole, next, read := ReadDirective(p, it);
      if whole {
        HandleFlag(p[next - 1], pad);
      }
    }

    /** The scanner: one pass, with the raw characters collected so far in `userChars`. */
    method CompilePattern(p: string)
      modifies this`formatters
      ensures formatters == Compile(p, custom) && AllCurrent(formatters, |formatters|, cache)
      ensures AllSince(formatters, FromStart)
    {
      formatters := [];
      var userChars := "";
      var it := 0;
      ghost var whole := Compile(p, custom);
      ScanStarts(p, custom);
      while it < |p|
        invariant 0 <= it <= |p|
        invariant OnTheWay(p, it, formatters, userChars, custom, whole)
      {
        ghost var before := formatters;
        if p[it] == '%' {
          var next, read := ScanDirective(p, it, userChars);
          TokenHandled(before, formatters, read, Tokens(p[next..]), userChars, custom, whole);
          it, userChars := next, "";
        } else {
          ScannedRaw(p, it, formatters, userChars, custom, whole);
          userChars := userChars + [p[it]];
          it := it + 1;
        }
      }
      ScanEnds(p, formatters, userChars, custom, whole);
      formatters := formatters + Flush(userChars);
      CompiledIsEmpty(p, custom);
    }

    /** Prints a message: what comes out is what the pattern means for it, with the cached time, every date text made
        afresh, and the time elapsed since the message before. */
    method Format(msg: Message, dest: Output) returns (out: Output)
      requires Valid()
      modifies this`cache, this`formatters, this`seen, this`last
      ensures Valid() && Shape() == old(Shape()) && seen == old(seen) + [Seconds(msg.time)]
      ensures out == PatternCompiler.Add(
                       RenderAll(EnvOf(world, msg, cache.tm, old(Previous())), Compile(pattern, custom), dest), eol)
      ensures Previous() == msg.time
      ensures forall s :: WholeSeconds(msg.time, s) ==>
                && seen == old(seen) + [s]
                && ((exists k :: 0 <= k < |seen| && seen[k] != 0) ==> cache.tm == world.getTime(s))
    {
      hide EnvOf, RenderAll, DateText, Seconds, WholeSeconds, Compile, Emptied, Refresh;
      OnlyOneSecond(msg.time);
      KeptIsNotShown(EnvOf(world, msg, Refresh(world.getTime, cache, Seconds(msg.time)).tm, Previous()), formatters,
                     Compile(pattern, custom), dest);
      RefreshKeepsTexts(formatters, world.getTime, cache, Seconds(msg.time));
      CacheAfter(world.getTime, seen + [Seconds(msg.time)]);
      assert (seen + [Seconds(msg.time)])[..|seen|] == seen;
      seen := seen + [Seconds(msg.time)];
      cache := Refresh(world.getTime, cache, Seconds(msg.time));
      out := RunFormatters(msg, dest);
      last := FromMessage(msg.time);
      out := PatternCompiler.Add(out, eol);
    }

    /** Runs the formatter at `i`. A full formatter makes its date text anew when the second has changed, or when it
        has none; an elapsed-time field takes the time of the message. */
    method RunFormatter(i: nat, msg: Message, before: Output) returns (out: Output)
      requires i < |formatters| && KeptTextAgrees(formatters[i], cache) && KeptTimeAgrees(formatters[i], last)
      modifies this`formatters
      ensures formatters == old(formatters)[i := Current(old(formatters)[i], cache, msg.time)]
      ensures out == Render(EnvOf(world, msg, cache.tm, Previous()), old(formatters)[i], before)
    {
      var f := formatters[i];
      PreviousMatters(world, msg, cache.tm, f, Previous(), before);
      hide EnvOf, RenderFull, RenderField, Render, DateText, ElapsedText;
      if f.Full? {
        if f.stamp != cache.secs || f.cached == "" {
          f := Full(cache.secs, DateText(cache.tm));
          formatters := formatters[i := f];
        }
        out := RenderFull(EnvOf(world, msg, cache.tm, 0), f.cached, before);
      } else if f.Elapsed? {
        var text := ElapsedText(f.flag, msg.time, TimeOf(f.since, start));
        formatters := formatters[i := Elapsed(f.flag, f.pad, FromMessage(msg.time))];
        out := RenderField(Written(text, |text|), f.pad, before);
      } else {
        out := Render(EnvOf(world, msg, cache.tm, 0), f, before);
      }
    }

    /** The loop over the formatters. */
    method RunFormatters(msg: Message, dest: Output) returns (out: Output)
      requires forall i :: 0 <= i < |formatters| ==> KeptTextAgrees(formatters[i], cache)
      requires AllSince(formatters, last)
      modifies this`formatters
      ensures AllCurrent(formatters, |formatters|, cache) && AllSince(formatters, FromMessage(msg.time))
      ensures Shape() == old(Shape())
      ensures out == RenderAll(EnvOf(world, msg, cache.tm, Previous()), old(formatters), dest)
    {
      hide EnvOf, Render, DateText, ElapsedText;
      out := dest;
      var i := 0;
      ghost var fs, env := formatters, EnvOf(world, msg, cache.tm, Previous());
      assert fs[0..] == fs;
      while i < |formatters|
        invariant 0 <= i <= |formatters| == |fs|
        invariant forall j :: 0 <= j < |fs| ==>
                    formatters[j] == if j < i then Current(fs[j], cache, msg.time) else fs[j]
        invariant RenderAll(env, fs[i..], out) == RenderAll(env, fs, dest)
      {
        RenderStep(env, fs, i, out);
        out := RunFormatter(i, msg, out);
        i := i + 1;
      }
      assert fs[|fs|..] == [];
      CurrentTexts(fs, formatters, cache, msg.time);
    }
  }

  /** The time of the message before matters to elapsed-time fields alone. */
  lemma PreviousMatters(world: World, msg: Message, tm: Tm, f: Formatter, previous: int, out: Output)
    ensures var r := Render(EnvOf(world, msg, tm, previous), f, out);
            if f.Full? then r == RenderFull(EnvOf(world, msg, tm, 0), DateText(tm), out)
            else if f.Elapsed? then
              var text := ElapsedText(f.flag, msg.time, previous);
              r == RenderField(Written(text, |text|), f.pad, out)
            else r == Render(EnvOf(world, msg, tm, 0), f, out)
  {
  }

  lemma RefreshKeepsTexts(fs: seq<Formatter>, getTime: int -> Tm, cache: TimeCache, secs: int)
    requires AllCurrent(fs, |fs|, cache)
    ensures forall i :: 0 <= i < |fs| ==> KeptTextAgrees(fs[i], Refresh(getTime, cache, secs))
  {
  }

  function TimeOf(since: Since, start: int): int {
    if since.FromStart? then start else since.time
  }

  /** A formatter after it has run: a full one keeps the text of the current second, an elapsed-time field the time of
      the message. */
  ghost function Current(f: Formatter, cache: TimeCache, time: int): Formatter {
    if f.Full? then Full(cache.secs, DateText(cache.tm))
    else if f.Elapsed? then Elapsed(f.flag, f.pad, FromMessage(time))
    else f
  }

  /** A date text kept for the second of the cache is that of the cached time. */
  ghost predicate KeptTextAgrees(f: Formatter, cache: TimeCache) {
    f.Full? && f.cached != "" && f.stamp == cache.secs ==> f.cached == DateText(cache.tm)
  }

  ghost predicate KeptTimeAgrees(f: Formatter, last: Since) {
    f.Elapsed? ==> f.since == last
  }

  /** Every elapsed-time field keeps the same time. */
  ghost predicate AllSince(fs: seq<Formatter>, last: Since) {
    forall i :: 0 <= i < |fs| ==> KeptTimeAgrees(fs[i], last)
  }

  lemma CurrentTexts(fs: seq<Formatter>, gs: seq<Formatter>, cache: TimeCache, time: int)
    requires |fs| == |gs| && forall i :: 0 <= i < |fs| ==> gs[i] == Current(fs[i], cache, time)
    ensures AllCurrent(gs, |gs|, cache) && AllSince(gs, FromMessage(time)) && Emptied(gs) == Emptied(fs)
  {
  }

  lemma RenderStep(env: Env, fs: seq<Formatter>, i: nat, out: Output)
    requires i < |fs|
    ensures RenderAll(env, fs[i..], out) == RenderAll(env, fs[i + 1..], Render(env, fs[i], out))
  {
    assert fs[i..][1..] == fs[i + 1..];
  }

  /** The first `n` formatters keep no date text but the current one. */
  ghost predicate AllCurrent(fs: seq<Formatter>, n: nat, cache: TimeCache)
    requires n <= |fs|
  {
    forall i :: 0 <= i < n && fs[i].Full? && fs[i].cached != "" ==>
      fs[i].stamp == cache.secs && fs[i].cached == DateText(cache.tm)
  }

  // ----- the scanner's arithmetic -----

  lemma WidthOfFirst(t: string)
    requires t != "" && IsDigit(t[0])
    ensures Width(t[..1]) == DigitValue(t[0])
  {
    var one := t[..1];
    assert one[..0] == "" && one[0] == t[0];
    var d := DigitValue(t[0]);
    assert d < 10 && 10 * Width("") + d == d;
    assert d % SIZE_VALUES == d;
  }

  lemma WidthOfNext(t: string, n: nat)
    requires n < |t| && forall k :: 0 <= k <= n ==> IsDigit(t[k])
    ensures Width(t[..n + 1]) == (10 * Width(t[..n]) + DigitValue(t[n])) % SIZE_VALUES
  {
    assert t[..n + 1][..n] == t[..n];
  }

  lemma DigitRunIs(t: string, n: nat)
    requires n <= |t| && (forall k :: 0 <= k < n ==> IsDigit(t[k])) && (n < |t| ==> !IsDigit(t[n]))
    ensures DigitRun(t) == n
  {
  }

  /** The side decides where the width is read from. */
  lemma SideScanned(p: string, start: nat, it: nat, side: Side)
    requires start < |p| && it == (if side.Left? then start else start + 1)
    requires side == if p[start] == '-' then Right else if p[start] == '=' then Center else Left
    ensures SideOf(p[start..]) == side && AfterSide(p[start..]) == p[it..]
  {
    assert p[start..][0] == p[start];
    if !side.Left? {
      SuffixOfSuffix(p, start, start + 1);
    }
  }

  lemma ScannedSide(p: string, start: nat, it: nat, side: Side)
    requires start < |p| && it == (if side.Left? then start else start + 1)
    requires side == if p[start] == '-' then Right else if p[start] == '=' then Center else Left
    ensures PadSpec(p[start..]) == WidthSpec(p[it..], side)
  {
    SideScanned(p, start, it, side);
  }

  lemma NoSpec(p: string, start: nat, side: Side)
    requires start <= |p| && (start == |p| || !IsDigit(p[start]))
    ensures WidthSpec(p[start..], side) == (NO_PADDING, p[start..])
  {
  }

  /** A pad spec is what the digits say, and the mark behind them if there is one. */
  lemma ScannedSpec(p: string, start: nat, it: nat, side: Side)
    requires start < |p| && IsDigit(p[start]) && it == start + DigitRun(p[start..])
    ensures var truncate := it < |p| && p[it] == '!';
            WidthSpec(p[start..], side) ==
            (PadInfo(AtMost(Width(p[start..][..it - start]), MAX_WIDTH), side, truncate, true),
             if truncate then p[it + 1..] else p[it..])
  {
    SuffixOfSuffix(p, start, it);
    if it < |p| {
      SuffixOfSuffix(p, start, it + 1);
    }
  }

  // ----- the compiler's steps -----

  lemma SuffixOfSuffix(p: string, i: nat, j: nat)
    requires i <= j <= |p|
    ensures p[i..][j - i..] == p[j..]
  {
  }

  lemma RawStep(ch: char, later: seq<Token>, userChars: string, custom: set<char>)
    ensures Group([Raw(ch)] + later, userChars, custom) == Group(later, userChars + [ch], custom)
  {
    assert ([Raw(ch)] + later)[1..] == later;
  }

  /** A raw character is put aside. */
  lemma ScannedRaw(p: string, it: nat, fs: seq<Formatter>, userChars: string, custom: set<char>,
                   whole: seq<Formatter>)
    requires it < |p| && p[it] != '%' && OnTheWay(p, it, fs, userChars, custom, whole)
    ensures OnTheWay(p, it + 1, fs, userChars + [p[it]], custom, whole)
  {
    SuffixOfSuffix(p, it, it + 1);
    RawStep(p[it], Tokens(p[it + 1..]), userChars, custom);
  }

  /** What is compiled, and what is put aside and what is still to be read, make up the compiled pattern. */
  ghost predicate OnTheWay(p: string, it: nat, fs: seq<Formatter>, userChars: string, custom: set<char>,
                           whole: seq<Formatter>)
    requires it <= |p|
  {
    fs + Group(Tokens(p[it..]), userChars, custom) == whole
  }

  lemma ScanStarts(p: string, custom: set<char>)
    ensures OnTheWay(p, 0, [], "", custom, Compile(p, custom))
  {
    assert p[0..] == p;
    assert [] + Compile(p, custom) == Compile(p, custom);
  }

  lemma ScanEnds(p: string, fs: seq<Formatter>, userChars: string, custom: set<char>, whole: seq<Formatter>)
    requires OnTheWay(p, |p|, fs, userChars, custom, whole)
    ensures fs + Flush(userChars) == whole
  {
    assert Tokens(p[|p|..]) == [];
  }

  lemma DirectiveStep(before: seq<Formatter>, userChars: string, pad: PadInfo, flag: char, later: seq<Token>,
                      custom: set<char>)
    ensures before + Group([Directive(pad, flag)] + later, userChars, custom) ==
            (before + Flush(userChars) + PatternCompiler.HandleFlag(flag, pad, custom)) + Group(later, "", custom)
  {
    assert ([Directive(pad, flag)] + later)[1..] == later;
    var a, b, c := Flush(userChars), PatternCompiler.HandleFlag(flag, pad, custom), Group(later, "", custom);
    assert Group([Directive(pad, flag)] + later, userChars, custom) == a + (b + c);
    ConcatAssociates(before, a, b + c);
    ConcatAssociates(before + a, b, c);
  }

  /** What was put aside is flushed, and the directive read is handled, if it is one. */
  ghost predicate IsHandled(before: seq<Formatter>, after: seq<Formatter>, read: seq<Token>, userChars: string,
                            custom: set<char>) {
    if read == [] then after == before + Flush(userChars)
    else
      && |read| == 1 && read[0].Directive?
      && after == (before + Flush(userChars)) + PatternCompiler.HandleFlag(read[0].flag, read[0].pad, custom)
  }

  lemma TokenHandled(before: seq<Formatter>, after: seq<Formatter>, read: seq<Token>, later: seq<Token>,
                     userChars: string, custom: set<char>, whole: seq<Formatter>)
    requires IsHandled(before, after, read, userChars, custom) && (read == [] ==> later == [])
    requires before + Group(read + later, userChars, custom) == whole
    ensures after + Group(later, "", custom) == whole
  {
    if read == [] {
      assert read + later == [];
    } else {
      assert read == [Directive(read[0].pad, read[0].flag)];
      DirectiveStep(before, userChars, read[0].pad, read[0].flag, later, custom);
    }
  }

  lemma FirstToken(p: string, it: nat, pad: PadInfo, at: nat)
    requires it < at < |p| && p[it] == '%' && (pad, p[at..]) == PadSpec(p[it + 1..])
    ensures Tokens(p[it..]) == [Directive(pad, p[at])] + Tokens(p[at + 1..])
  {
    SuffixOfSuffix(p, it, it + 1);
    SuffixOfSuffix(p, at, at + 1);
    DirectiveFirst(p[it..], pad, p[at..]);
  }

  lemma DirectiveFirst(s: string, pad: PadInfo, rest: string)
    requires s != "" && s[0] == '%' && PadSpec(s[1..]) == (pad, rest) && rest != ""
    ensures Tokens(s) == [Directive(pad, rest[0])] + Tokens(rest[1..])
  {
  }

  lemma CutOffToken(p: string, it: nat, pad: PadInfo)
    requires it < |p| && p[it] == '%' && (pad, p[|p|..]) == PadSpec(p[it + 1..])
    ensures Tokens(p[it..]) == [] && Tokens(p[|p|..]) == []
  {
    SuffixOfSuffix(p, it, it + 1);
  }

  // ----- what full formatters keep -----

  /** What formatters keep does not show in what they print. */
  lemma {:induction false} KeptIsNotShown(env: Env, fs: seq<Formatter>, gs: seq<Formatter>, out: Output)
    requires Emptied(fs) == Emptied(gs)
    ensures RenderAll(env, fs, out) == RenderAll(env, gs, out)
    decreases |fs|
  {
    assert |fs| == |Emptied(fs)| == |Emptied(gs)| == |gs|;
    if fs == [] {
    } else {
      assert EmptyOne(fs[0]) == Emptied(fs)[0] == Emptied(gs)[0] == EmptyOne(gs[0]);
      assert Emptied(fs[1..]) == Emptied(fs)[1..] && Emptied(gs[1..]) == Emptied(gs)[1..];
      assert Render(env, fs[0], out) == Render(env, gs[0], out);
      KeptIsNotShown(env, fs[1..], gs[1..], Render(env, fs[0], out));
    }
  }

  ghost function EmptyOne(f: Formatter): Formatter {
    if f.Full? then Full(0, "") else if f.Elapsed? then Elapsed(f.flag, f.pad, FromStart) else f
  }

  ghost function Emptied(fs: seq<Formatter>): (r: seq<Formatter>)
    ensures |r| == |fs|
  {
    seq(|fs|, i requires 0 <= i < |fs| => EmptyOne(fs[i]))
  }

  ghost predicate IsEmpty(f: Formatter) {
    (f.Full? ==> f.cached == "") && KeptTimeAgrees(f, FromStart)
  }

  lemma {:induction false} GroupedIsEmpty(tokens: seq<Token>, pending: string, custom: set<char>)
    ensures forall f :: f in Group(tokens, pending, custom) ==> IsEmpty(f)
    decreases |tokens|
  {
    if tokens == [] {
    } else {
      match tokens[0] {
        case Raw(ch) => GroupedIsEmpty(tokens[1..], pending + [ch], custom);
        case Directive(pad, flag) => GroupedIsEmpty(tokens[1..], "", custom);
      }
    }
  }

  /** A freshly compiled pattern keeps no date text and no time. */
  lemma CompiledIsEmpty(p: string, custom: set<char>)
    ensures var fs := Compile(p, custom); forall i :: 0 <= i < |fs| ==> IsEmpty(fs[i])
  {
    GroupedIsEmpty(Tokens(p), "", custom);
    var fs := Compile(p, custom);
    assert forall i :: 0 <= i < |fs| ==> fs[i] in fs;
  }
}

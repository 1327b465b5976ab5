/** The lines that the pattern formatter of include/spdlog/pattern_formatter-inl.h makes of a message: the full format
    and the pattern of the proxy's own log. */
module LogLines {
  import opened Decimal
  import opened PatternCompiler
  import opened PatternFormatting
  import opened PatternMeaning
  import opened SeqFacts

  // ----- the time stamp -----

  /** A time as calendars have it. */
  ghost predicate InRange(tm: Tm, ms: nat) {
    && 1000 <= tm.year + 1900 <= 9999 && 0 <= tm.mon <= 11 && 1 <= tm.mday <= 31
    && 0 <= tm.hour <= 23 && 0 <= tm.min <= 59 && 0 <= tm.sec <= 60 && ms < 1000
  }

  ghost predicate AllDigits(s: string) {
    forall k :: 0 <= k < |s| ==> '0' <= s[k] <= '9'
  }

  /** `s` is `n` in just `width` digits. */
  ghost predicate Shows(s: string, width: nat, n: int) {
    |s| == width && AllDigits(s) && DigitsValue(s) == n
  }

  /** Year, month, day, hour, minute, second and millisecond, each of its own width. */
  ghost predicate IsStamp(s: string, tm: Tm, ms: nat) {
    && |s| == 23
    && s[4] == '-' && s[7] == '-' && s[10] == ' ' && s[13] == ':' && s[16] == ':' && s[19] == '.'
    && Shows(s[0..4], 4, tm.year + 1900) && Shows(s[5..7], 2, tm.mon + 1) && Shows(s[8..10], 2, tm.mday)
    && Shows(s[11..13], 2, tm.hour) && Shows(s[14..16], 2, tm.min) && Shows(s[17..19], 2, tm.sec)
    && Shows(s[20..23], 3, ms)
  }

  function Stamp(tm: Tm, ms: nat): string {
    SignedDigits(tm.year + 1900) + "-" + Pad2(tm.mon + 1) + "-" + Pad2(tm.mday) + " "
    + Pad2(tm.hour) + ":" + Pad2(tm.min) + ":" + Pad2(tm.sec) + "." + Pad3(ms)
  }

  lemma ValueOfTwo(a: char, b: char)
    ensures DigitsValue([a, b]) == 10 * (a as int - '0' as int) + (b as int - '0' as int)
  {
    var both, one := [a, b], [a];
    assert both[..1] == one && one[..0] == [];
    assert DigitsValue(one) == a as int - '0' as int;
  }

  lemma Pad2Shows(n: int)
    requires 0 <= n < 100
    ensures Shows(Pad2(n), 2, n)
  {
    ValueOfTwo(DigitChar(n / 10), DigitChar(n % 10));
  }

  lemma Pad3Shows(n: nat)
    requires n < 1000
    ensures Shows(Pad3(n), 3, n)
  {
    var a, b, c := DigitChar(n / 100), DigitChar(n / 10 % 10), DigitChar(n % 10);
    ValueOfTwo(a, b);
    assert [a, b, c][..2] == [a, b];
  }

  lemma YearShows(n: int)
    requires 1000 <= n <= 9999
    ensures Shows(SignedDigits(n), 4, n)
  {
    DigitsAreNumeral(n);
    assert |Digits(n / 1000)| == 1;
    assert |Digits(n / 100)| == 2 by { assert n / 100 / 10 == n / 1000; }
    assert |Digits(n / 10)| == 3 by { assert n / 10 / 10 == n / 100; }
  }

  lemma DatePieces(y: string, m: string, d: string)
    requires |y| == 4 && |m| == 2 && |d| == 2
    ensures var s := y + "-" + m + "-" + d;
            |s| == 10 && s[4] == s[7] == '-' && s[0..4] == y && s[5..7] == m && s[8..10] == d
  {
  }

  lemma TimePieces(h: string, i: string, s: string, ms: string)
    requires |h| == 2 && |i| == 2 && |s| == 2 && |ms| == 3
    ensures var t := h + ":" + i + ":" + s + "." + ms;
            && |t| == 12 && t[2] == t[5] == ':' && t[8] == '.'
            && t[0..2] == h && t[3..5] == i && t[6..8] == s && t[9..12] == ms
  {
  }

  lemma PieceOf(a: string, c: char, b: string, lo: nat, hi: nat)
    requires lo <= hi
    ensures hi <= |a| ==> (a + [c] + b)[lo..hi] == a[lo..hi]
    ensures hi <= |b| ==> (a + [c] + b)[|a| + 1 + lo..|a| + 1 + hi] == b[lo..hi]
  {
  }

  lemma Separated(y: string, m: string, d: string, h: string, i: string, s: string, ms: string)
    requires |y| == 4 && |m| == 2 && |d| == 2 && |h| == 2 && |i| == 2 && |s| == 2 && |ms| == 3
    ensures var all := y + "-" + m + "-" + d + " " + h + ":" + i + ":" + s + "." + ms;
            && |all| == 23
            && all[4] == '-' && all[7] == '-' && all[10] == ' ' && all[13] == ':' && all[16] == ':' && all[19] == '.'
            && all[0..4] == y && all[5..7] == m && all[8..10] == d && all[11..13] == h && all[14..16] == i
            && all[17..19] == s && all[20..23] == ms
  {
    var date, time := y + "-" + m + "-" + d, h + ":" + i + ":" + s + "." + ms;
    DatePieces(y, m, d);
    TimePieces(h, i, s, ms);
    JoinedPieces(date, h, i, s, ms);
    PieceOf(date, ' ', time, 0, 4);
    PieceOf(date, ' ', time, 5, 7);
    PieceOf(date, ' ', time, 8, 10);
    PieceOf(date, ' ', time, 0, 2);
    PieceOf(date, ' ', time, 3, 5);
    PieceOf(date, ' ', time, 6, 8);
    PieceOf(date, ' ', time, 9, 12);
  }

  lemma JoinedPieces(date: string, h: string, i: string, s: string, ms: string)
    ensures date + " " + h + ":" + i + ":" + s + "." + ms == date + [' '] + (h + ":" + i + ":" + s + "." + ms)
  {
  }

  /** The stamp shows the time it is made of. */
  lemma StampReads(tm: Tm, ms: nat)
    requires InRange(tm, ms)
    ensures IsStamp(Stamp(tm, ms), tm, ms)
  {
    YearShows(tm.year + 1900);
    Pad2Shows(tm.mon + 1);
    Pad2Shows(tm.mday);
    Pad2Shows(tm.hour);
    Pad2Shows(tm.min);
    Pad2Shows(tm.sec);
    Pad3Shows(ms);
    hide SignedDigits, Pad2, Pad3, AllDigits, DigitsValue;
    Separated(SignedDigits(tm.year + 1900), Pad2(tm.mon + 1), Pad2(tm.mday), Pad2(tm.hour), Pad2(tm.min), Pad2(tm.sec),
              Pad3(ms));
  }

  /** In the range of calendars the common time fields declare the lengths they have, as the message's own fields
      always do. */
  lemma DeclaredLengthsAreTrue(world: World, msg: Message, tm: Tm, flag: char)
    requires InRange(tm, Millis(msg.time)) && flag in {'v', 'n', 'l', 'Y', 'm', 'd', 'H', 'M', 'S', 'e'}
    ensures var field := FieldTextOf(world, msg, tm, flag); field.Written? && field.declared == |field.text|
  {
    YearShows(tm.year + 1900);
    Pad2Shows(tm.mon + 1);
    Pad2Shows(tm.mday);
    Pad2Shows(tm.hour);
    Pad2Shows(tm.min);
    Pad2Shows(tm.sec);
    Pad3Shows(Millis(msg.time));
    hide SignedDigits, Pad2, Pad3, Millis, AllDigits, DigitsValue;
  }

  // ----- the full format -----

  /** `%+` prints the stamp, the logger name if there is one, the level, which is in the colour range, the source
      location if there is one, and the message. */
  lemma FullLine(world: World, msg: Message, tm: Tm, previous: int, t: string, start: nat, end: nat)
    ensures var name := if msg.loggerName == "" then "" else "[" + msg.loggerName + "] ";
            var source := if msg.source.NoSource? then ""
                          else "[" + msg.source.shortFile + ":" + Digits(msg.source.line) + "] ";
            var head := t + ("[" + Stamp(tm, Millis(msg.time)) + "] " + name + "[");
            RenderAll(EnvOf(world, msg, tm, previous), Compile("%+", {}), Output(t, start, end)) ==
            Output(head + msg.level + ("] " + source + msg.payload), |head|, |head| + |msg.level|)
  {
    var env := EnvOf(world, msg, tm, previous);
    FullPrints(env, {}, t, start, end);
    DateAndMillis(tm, Millis(msg.time), "] " + Bracketed(msg.loggerName) + "[");
    HeadAssociates(t, DateText(tm), Pad3(Millis(msg.time)) + "] " + Bracketed(msg.loggerName) + "[");
    NameInBrackets(tm, Millis(msg.time), msg.loggerName);
  }

  lemma NameInBrackets(tm: Tm, ms: nat, name: string)
    ensures DateText(tm) + (Pad3(ms) + "] " + Bracketed(name) + "[") ==
            "[" + Stamp(tm, ms) + "] " + (if name == "" then "" else "[" + name + "] ") + "["
  {
    DateIsStamp(tm, ms);
    hide DateText, Stamp, Pad3;
    var d, p, b := DateText(tm), Pad3(ms), Bracketed(name);
    assert d + (p + "] " + b + "[") == (d + p) + "] " + b + "[";
  }

  lemma DateIsStamp(tm: Tm, ms: nat)
    ensures DateText(tm) + Pad3(ms) == "[" + Stamp(tm, ms)
  {
    hide SignedDigits, Pad2, Pad3;
    DateParts(SignedDigits(tm.year + 1900), Pad2(tm.mon + 1), Pad2(tm.mday), Pad2(tm.hour), Pad2(tm.min), Pad2(tm.sec),
              Pad3(ms));
  }

  lemma DateParts(y: string, m: string, d: string, h: string, i: string, s: string, ms: string)
    ensures "[" + y + "-" + m + "-" + d + " " + h + ":" + i + ":" + s + "." + ms ==
            "[" + (y + "-" + m + "-" + d + " " + h + ":" + i + ":" + s + "." + ms)
  {
  }

  lemma DateAndMillis(tm: Tm, ms: nat, rest: string)
    ensures DateText(tm) + (Pad3(ms) + rest) == ("[" + Stamp(tm, ms)) + rest
  {
    DateIsStamp(tm, ms);
    ConcatAssociates(DateText(tm), Pad3(ms), rest);
  }

  lemma HeadAssociates(t: string, a: string, b: string)
    ensures t + a + b == t + (a + b)
  {
    ConcatAssociates(t, a, b);
  }

  // ----- elapsed time -----

  /** The elapsed-time fields count nanoseconds, microseconds, milliseconds and seconds since the message before, and
      nothing when the clock has gone back. */
  lemma ElapsedCounts(flag: char, time: int, previous: int) returns (n: nat)
    requires flag in {'u', 'i', 'o', 'O'}
    ensures IsNumeral(ElapsedText(flag, time, previous), n)
    ensures time <= previous ==> n == 0
    ensures time > previous && flag == 'u' ==> n == time - previous
    ensures time > previous && flag == 'i' ==> n * 1_000 <= time - previous < (n + 1) * 1_000
    ensures time > previous && flag == 'o' ==> n * 1_000_000 <= time - previous < (n + 1) * 1_000_000
    ensures time > previous && flag == 'O' ==> n * 1_000_000_000 <= time - previous < (n + 1) * 1_000_000_000
  {
    n := if previous < time then (time - previous) / UnitOf(flag) else 0;
    DigitsAreNumeral(n);
  }

  // ----- the proxy's own log -----

  lemma TextFirst(env: Env, piece: Piece, rest: seq<Piece>)
    ensures TextOf(env, [piece] + rest) ==
            (match piece case Text(text) => text case FieldOf(flag) => Shown(env.field(flag))) + TextOf(env, rest)
  {
    assert ([piece] + rest)[1..] == rest;
  }

  lemma {:induction false} TextAppend(env: Env, a: seq<Piece>, b: seq<Piece>)
    ensures TextOf(env, a + b) == TextOf(env, a) + TextOf(env, b)
    decreases |a|
  {
    if a == [] {
      assert a + b == b;
    } else {
      assert (a + b)[1..] == a[1..] + b;
      TextAppend(env, a[1..], b);
    }
  }

  lemma DatePart(env: Env)
    ensures TextOf(env, PROXY_DATE) ==
            "[" + (Shown(env.field('Y')) + ("-" + (Shown(env.field('m')) + ("-" + (Shown(env.field('d')) + " ")))))
  {
    TextFirst(env, Text(" "), []);
    TextFirst(env, FieldOf('d'), [Text(" ")]);
    TextFirst(env, Text("-"), [FieldOf('d'), Text(" ")]);
    TextFirst(env, FieldOf('m'), [Text("-"), FieldOf('d'), Text(" ")]);
    TextFirst(env, Text("-"), [FieldOf('m'), Text("-"), FieldOf('d'), Text(" ")]);
    TextFirst(env, FieldOf('Y'), [Text("-"), FieldOf('m'), Text("-"), FieldOf('d'), Text(" ")]);
    TextFirst(env, Text("["), [FieldOf('Y'), Text("-"), FieldOf('m'), Text("-"), FieldOf('d'), Text(" ")]);
  }

  lemma TimePart(env: Env)
    ensures TextOf(env, PROXY_TIME) ==
            Shown(env.field('H')) + (":" + (Shown(env.field('M')) + (":" + (Shown(env.field('S'))
            + ("." + Shown(env.field('e')))))))
  {
    TextFirst(env, FieldOf('e'), []);
    TextFirst(env, Text("."), [FieldOf('e')]);
    TextFirst(env, FieldOf('S'), [Text("."), FieldOf('e')]);
    TextFirst(env, Text(":"), [FieldOf('S'), Text("."), FieldOf('e')]);
    TextFirst(env, FieldOf('M'), [Text(":"), FieldOf('S'), Text("."), FieldOf('e')]);
    TextFirst(env, Text(":"), [FieldOf('M'), Text(":"), FieldOf('S'), Text("."), FieldOf('e')]);
    TextFirst(env, FieldOf('H'), [Text(":"), FieldOf('M'), Text(":"), FieldOf('S'), Text("."), FieldOf('e')]);
  }

  lemma RestPart(env: Env)
    ensures TextOf(env, PROXY_REST) ==
            "][" + (Shown(env.field('t')) + ("][" + (Shown(env.field('l')) + ("] " + Shown(env.field('v'))))))
  {
    TextFirst(env, FieldOf('v'), []);
    TextFirst(env, Text("] "), [FieldOf('v')]);
    TextFirst(env, FieldOf('l'), [Text("] "), FieldOf('v')]);
    TextFirst(env, Text("]["), [FieldOf('l'), Text("] "), FieldOf('v')]);
    TextFirst(env, FieldOf('t'), [Text("]["), FieldOf('l'), Text("] "), FieldOf('v')]);
    TextFirst(env, Text("]["), [FieldOf('t'), Text("]["), FieldOf('l'), Text("] "), FieldOf('v')]);
  }

  lemma StampParts(y: string, m: string, d: string, h: string, i: string, s: string, ms: string, rest: string)
    ensures "[" + (y + ("-" + (m + ("-" + (d + " "))))) + (h + (":" + (i + (":" + (s + ("." + ms)))))) + rest ==
            "[" + (y + "-" + m + "-" + d + " " + h + ":" + i + ":" + s + "." + ms) + rest
  {
    var date := y + "-" + m + "-" + d + " ";
    assert y + ("-" + (m + ("-" + (d + " ")))) == date;
    TimeParts(date, h, i, s, ms);
  }

  lemma TimeParts(date: string, h: string, i: string, s: string, ms: string)
    ensures "[" + date + (h + (":" + (i + (":" + (s + ("." + ms)))))) ==
            "[" + (date + h + ":" + i + ":" + s + "." + ms)
  {
  }

  /** What the fields of the pattern print for a message. */
  lemma FieldsShown(world: World, msg: Message, tm: Tm, previous: int)
    ensures var env := EnvOf(world, msg, tm, previous);
            && Shown(env.field('Y')) == SignedDigits(tm.year + 1900) && Shown(env.field('m')) == Pad2(tm.mon + 1)
            && Shown(env.field('d')) == Pad2(tm.mday) && Shown(env.field('H')) == Pad2(tm.hour)
            && Shown(env.field('M')) == Pad2(tm.min) && Shown(env.field('S')) == Pad2(tm.sec)
            && Shown(env.field('e')) == Pad3(Millis(msg.time)) && Shown(env.field('l')) == msg.level
            && Shown(env.field('v')) == msg.payload && Shown(env.field('n')) == msg.loggerName
            && Shown(env.field('t')) == Shown(world.field(msg, tm, 't'))
  {
  }

  lemma StampInParts(tm: Tm, ms: nat, rest: string)
    ensures "[" + (SignedDigits(tm.year + 1900) + ("-" + (Pad2(tm.mon + 1) + ("-" + (Pad2(tm.mday) + " ")))))
            + (Pad2(tm.hour) + (":" + (Pad2(tm.min) + (":" + (Pad2(tm.sec) + ("." + Pad3(ms))))))) + rest ==
            "[" + Stamp(tm, ms) + rest
  {
    hide SignedDigits, Pad2, Pad3;
    StampParts(SignedDigits(tm.year + 1900), Pad2(tm.mon + 1), Pad2(tm.mday), Pad2(tm.hour), Pad2(tm.min), Pad2(tm.sec),
               Pad3(ms), rest);
  }

  lemma RestParts(stamp: string, thread: string, level: string, payload: string)
    ensures stamp + ("][" + (thread + ("][" + (level + ("] " + payload))))) ==
            stamp + "][" + thread + "][" + level + "] " + payload
  {
  }

  /** A line of the proxy's log: stamp, thread, level and message. */
  lemma ProxyLine(world: World, msg: Message, tm: Tm, previous: int, t: string, start: nat, end: nat)
    ensures var stamp, thread := Stamp(tm, Millis(msg.time)), Shown(world.field(msg, tm, 't'));
            RenderAll(EnvOf(world, msg, tm, previous), Compile("[%Y-%m-%d %H:%M:%S.%e][%t][%l] %v", {}),
                      Output(t, start, end)) ==
            Output(t + ("[" + stamp + "][" + thread + "][" + msg.level + "] " + msg.payload), start, end)
  {
    var env := EnvOf(world, msg, tm, previous);
    ProxyPatternPrints(env, t, start, end);
    ProxyText(world, msg, tm, previous);
  }

  lemma ProxyText(world: World, msg: Message, tm: Tm, previous: int)
    ensures var stamp, thread := Stamp(tm, Millis(msg.time)), Shown(world.field(msg, tm, 't'));
            TextOf(EnvOf(world, msg, tm, previous), PROXY_DATE + PROXY_TIME + PROXY_REST) ==
            "[" + stamp + "][" + thread + "][" + msg.level + "] " + msg.payload
  {
    var env := EnvOf(world, msg, tm, previous);
    TextAppend(env, PROXY_DATE, PROXY_TIME);
    TextAppend(env, PROXY_DATE + PROXY_TIME, PROXY_REST);
    DatePart(env);
    TimePart(env);
    RestPart(env);
    FieldsShown(world, msg, tm, previous);
    hide *;
    StampInParts(tm, Millis(msg.time), TextOf(env, PROXY_REST));
    RestParts("[" + Stamp(tm, Millis(msg.time)), Shown(world.field(msg, tm, 't')), msg.level, msg.payload);
  }
}

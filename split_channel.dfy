/**
 * The broadcast-splitting test: a producer publishes 1..10 on a broadcast
 * topic and closes it; two subscribers, paced at 100 milliseconds and at one
 * second, record every item they receive; and the seed of the test's random
 * source is logged in a readable form.
 *
 * The broadcast channel itself is library code. It is represented only by its
 * contract: a subscription opened before publication begins delivers exactly
 * the published items, in order, and then end of stream.
 */
module SplitChannel {

  const LongMin: int := -0x8000_0000_0000_0000
  const LongMax: int := 0x7fff_ffff_ffff_ffff

  /** A Kotlin `Long`. */
  type Long = x: int | -0x8000_0000_0000_0000 <= x <= 0x7fff_ffff_ffff_ffff

  // ---------------------------------------------------------------------------
  // readableSeed
  // ---------------------------------------------------------------------------

  predicate IsDigit(c: char)
  {
    '0' <= c <= '9'
  }

  predicate AllDigits(s: string)
  {
    forall i :: 0 <= i < |s| ==> IsDigit(s[i])
  }

  function DigitChar(d: nat): (c: char)
    requires d < 10
    ensures IsDigit(c)
  {
    ('0' as int + d) as char
  }

  /** The decimal digits of `n`, most significant first. */
  function Digits(n: nat): (s: string)
    ensures |s| > 0 && AllDigits(s)
    ensures n > 0 ==> s[0] != '0'
  {
    if n < 10 then [DigitChar(n)] else Digits(n / 10) + [DigitChar(n % 10)]
  }

  /** The number a string of decimal digits denotes. */
  function ValueOf(s: string): nat
    requires AllDigits(s)
  {
    if s == [] then 0 else ValueOf(s[..|s| - 1]) * 10 + (s[|s| - 1] as int - '0' as int)
  }

  /** `Digits` renders `n` in decimal: reading its output back gives `n`. */
  lemma {:induction false} DigitsDenote(n: nat)
    ensures ValueOf(Digits(n)) == n
  {
    if n >= 10 {
      DigitsDenote(n / 10);
      var s := Digits(n);
      assert s[..|s| - 1] == Digits(n / 10);
    }
  }

  /**
   * And back: a digit string without a leading zero is the rendering of the
   * number it denotes.
   */
  lemma {:induction false} DigitsOfValue(s: string)
    requires |s| > 0 && AllDigits(s) && (|s| > 1 ==> s[0] != '0')
    ensures Digits(ValueOf(s)) == s
  {
    if |s| > 1 {
      var init := s[..|s| - 1];
      DigitsOfValue(init);
      assert init[0] == s[0];
      PositiveValue(init);
    }
  }

  lemma {:induction false} PositiveValue(s: string)
    requires |s| > 0 && AllDigits(s) && s[0] != '0'
    ensures ValueOf(s) > 0
  {
    if |s| > 1 {
      PositiveValue(s[..|s| - 1]);
    }
  }

  /** `Long.toString`: the plain decimal rendering of a `Long`. */
  function Decimal(x: Long): string
  {
    if x < 0 then "-" + Digits(-(x as int)) else Digits(x)
  }

  /** Commas between groups of three digits counted from the right. */
  function GroupThousands(ds: string): string
  {
    if |ds| <= 3 then ds else GroupThousands(ds[..|ds| - 3]) + [','] + ds[|ds| - 3..]
  }

  /** `String.format("%,d", x)` in a locale that groups by three with `,`. */
  function FormatGrouped(x: Long): string
  {
    if x < 0 then "-" + GroupThousands(Digits(-(x as int))) else GroupThousands(Digits(x))
  }

  /** `s.replace(from, to)`: every occurrence of one character replaced by another. */
  function ReplaceChar(s: string, from: char, to: char): (r: string)
    ensures |r| == |s|
    ensures forall i :: 0 <= i < |s| ==> r[i] == if s[i] == from then to else s[i]
  {
    seq(|s|, i requires 0 <= i < |s| => if s[i] == from then to else s[i])
  }

  /** `readableSeed`: the grouped decimal, with `_` for `,`, and an `L` suffix. */
  function ReadableSeed(seed: Long): (r: string)
    ensures |r| > 0 && r[|r| - 1] == 'L'
    ensures forall i :: 0 <= i < |r| ==> r[i] != ','
  {
    ReplaceChar(FormatGrouped(seed), ',', '_') + "L"
  }

  /** `s` with every occurrence of `c` removed. */
  function Without(s: string, c: char): string
  {
    if s == [] then []
    else Without(s[..|s| - 1], c) + (if s[|s| - 1] == c then [] else [s[|s| - 1]])
  }

  /**
   * `s` is a run of digit groups joined by `sep`: separators stand exactly at
   * the positions a multiple of four from the end, so every group after the
   * first has three digits, and the first group has one to three.
   */
  ghost predicate WellGrouped(s: string, sep: char)
  {
    && |s| > 0
    && |s| % 4 != 0
    && forall i :: 0 <= i < |s| ==> GroupedAt(s, sep, i)
  }

  /** Position `i` of `s` holds `sep` exactly when it is a multiple of four from the end, and a digit otherwise. */
  ghost predicate GroupedAt(s: string, sep: char, i: nat)
    requires i < |s|
  {
    && (s[i] == sep <==> (|s| - i) % 4 == 0)
    && (s[i] != sep ==> IsDigit(s[i]))
  }

  lemma {:induction false} WithoutConcat(a: string, b: string, c: char)
    ensures Without(a + b, c) == Without(a, c) + Without(b, c)
  {
    if b != [] {
      var init := b[..|b| - 1];
      assert (a + b)[..|a + b| - 1] == a + init;
      WithoutConcat(a, init, c);
    } else {
      assert a + b == a;
    }
  }

  lemma {:induction false} WithoutAbsent(s: string, c: char)
    requires forall i :: 0 <= i < |s| ==> s[i] != c
    ensures Without(s, c) == s
  {
    if s != [] {
      WithoutAbsent(s[..|s| - 1], c);
    }
  }

  /** Grouping inserts nothing but separators: removing them gives the digits back. */
  lemma {:induction false} GroupThousandsStrip(ds: string)
    requires AllDigits(ds)
    ensures Without(GroupThousands(ds), ',') == ds
  {
    if |ds| <= 3 {
      WithoutAbsent(ds, ',');
    } else {
      var head, tail := ds[..|ds| - 3], ds[|ds| - 3..];
      var h := GroupThousands(head);
      assert GroupThousands(ds) == h + [','] + tail;
      GroupThousandsStrip(head);
      assert Without(h, ',') == head;
      WithoutConcat(h + [','], tail, ',');
      WithoutConcat(h, [','], ',');
      assert Without([','], ',') == [];
      assert Without(h + [','], ',') == head;
      WithoutAbsent(tail, ',');
      assert head + tail == ds;
    }
  }

  /** Grouping puts a separator after every third digit from the right. */
  lemma {:induction false} GroupThousandsShape(ds: string)
    requires |ds| > 0 && AllDigits(ds)
    ensures WellGrouped(GroupThousands(ds), ',')
  {
    if |ds| > 3 {
      var head, tail := ds[..|ds| - 3], ds[|ds| - 3..];
      GroupThousandsShape(head);
      var h := GroupThousands(head);
      var g := GroupThousands(ds);
      assert g == h + [','] + tail;
      assert |g| == |h| + 4;
      forall i | 0 <= i < |g|
        ensures GroupedAt(g, ',', i)
      {
        if i < |h| {
          assert GroupedAt(h, ',', i);
          assert g[i] == h[i];
          ModFourShift(|h| - i);
        } else if i == |h| {
          assert g[i] == ',';
        } else {
          assert g[i] == tail[i - |h| - 1];
        }
      }
      ModFourShift(|h|);
    }
  }

  lemma ModFourShift(a: int)
    ensures (a + 4) % 4 == a % 4
  {
  }

  /** Replacing the separator of a well-grouped string keeps it well grouped. */
  lemma ReplaceKeepsGrouping(s: string)
    requires WellGrouped(s, ',')
    ensures WellGrouped(ReplaceChar(s, ',', '_'), '_')
  {
    var r := ReplaceChar(s, ',', '_');
    forall i | 0 <= i < |r|
      ensures GroupedAt(r, '_', i)
    {
      assert GroupedAt(s, ',', i);
    }
  }

  lemma {:induction false} ReplaceThenWithout(s: string)
    requires forall i :: 0 <= i < |s| ==> s[i] != '_'
    ensures Without(ReplaceChar(s, ',', '_'), '_') == Without(s, ',')
  {
    if s != [] {
      var init := s[..|s| - 1];
      ReplaceThenWithout(init);
      assert ReplaceChar(s, ',', '_')[..|s| - 1] == ReplaceChar(init, ',', '_');
    }
  }

  /**
   * Removing the underscores and the trailing `L` from `readableSeed` gives
   * the plain decimal rendering of the seed.
   */
  lemma ReadableSeedStrips(seed: Long)
    ensures Without(ReadableSeed(seed)[..|ReadableSeed(seed)| - 1], '_') == Decimal(seed)
  {
    var f := FormatGrouped(seed);
    var n: nat := if seed < 0 then -(seed as int) else seed;
    var g := GroupThousands(Digits(n));
    GroupThousandsShape(Digits(n));
    GroupThousandsStrip(Digits(n));
    assert ReadableSeed(seed)[..|ReadableSeed(seed)| - 1] == ReplaceChar(f, ',', '_');
    forall i | 0 <= i < |f|
      ensures f[i] != '_'
    {
      if seed < 0 && i == 0 {
        assert f[i] == '-';
      } else {
        var k := if seed < 0 then i - 1 else i;
        assert f[i] == g[k];
        assert GroupedAt(g, ',', k);
      }
    }
    ReplaceThenWithout(f);
    if seed < 0 {
      WithoutConcat("-", g, ',');
      assert Without("-", ',') == "-" by {
        assert "-"[..0] == [];
      }
    }
  }

  /**
   * `readableSeed` writes groups of exactly three digits, counted from the
   * right and joined by `_`, with a leading group of one to three digits,
   * after a minus sign for a negative seed.
   */
  lemma ReadableSeedGroups(seed: Long)
    ensures var body := ReadableSeed(seed)[..|ReadableSeed(seed)| - 1];
            if seed < 0 then |body| > 1 && body[0] == '-' && WellGrouped(body[1..], '_')
            else WellGrouped(body, '_')
  {
    var n: nat := if seed < 0 then -(seed as int) else seed;
    var g := GroupThousands(Digits(n));
    GroupThousandsShape(Digits(n));
    ReplaceKeepsGrouping(g);
    ReadableSeedBody(seed);
  }

  /** What `readableSeed` writes before the `L`: the sign, then the regrouped digits. */
  lemma ReadableSeedBody(seed: Long)
    ensures var body := ReadableSeed(seed)[..|ReadableSeed(seed)| - 1];
            var n: nat := if seed < 0 then -(seed as int) else seed;
            var r := ReplaceChar(GroupThousands(Digits(n)), ',', '_');
            if seed < 0 then |body| == |r| + 1 && body[0] == '-' && body[1..] == r
            else body == r
  {
    var n: nat := if seed < 0 then -(seed as int) else seed;
    var g := GroupThousands(Digits(n));
    var body := ReadableSeed(seed)[..|ReadableSeed(seed)| - 1];
    assert body == ReplaceChar(FormatGrouped(seed), ',', '_');
    if seed < 0 {
      assert FormatGrouped(seed) == "-" + g;
      assert body[1..] == ReplaceChar(g, ',', '_');
    }
  }

  /** The seed the test runs with, as it appears in the log. */
  lemma ReadableSeedOfTestSeed()
    ensures ReadableSeed(225912776299004) == "225_912_776_299_004L"
  {
    TestSeedDigits();
    TestSeedGrouping();
    assert FormatGrouped(225912776299004) == "225,912,776,299,004";
    assert ReplaceChar("225,912,776,299,004", ',', '_') == "225_912_776_299_004";
  }

  lemma TestSeedDigits()
    ensures Digits(225912776299004) == "225912776299004"
  {
    var s := "225912776299004";
    TestSeedValue(s);
    DigitsOfValue(s);
  }

  /** `s` spells the test seed's digits, 225912776299004, character by character. */
  predicate IsTestSeedText(s: string)
  {
    |s| == 15 && s[0] == '2' && s[1] == '2' && s[2] == '5' && s[3] == '9' && s[4] == '1' && s[5] == '2' && s[6] == '7' && s[7] == '7' && s[8] == '6' && s[9] == '2' && s[10] == '9' && s[11] == '9' && s[12] == '0' && s[13] == '0' && s[14] == '4'
  }

  /** Reads the test seed's digits back, a few at a time. */
  lemma TestSeedValue(s: string)
    requires IsTestSeedText(s)
    ensures AllDigits(s) && ValueOf(s) == 225912776299004
  {
    TestSeedDigits0To4(s);
    TestSeedDigits4To8(s);
    TestSeedDigits8To12(s);
    TestSeedDigits12To15(s);
    assert s[..15] == s;
  }

  lemma TestSeedDigits0To4(s: string)
    requires IsTestSeedText(s)
    ensures AllDigits(s) && ValueOf(s[..4]) == 2259
  {
    assert AllDigits(s);
    assert s[..0] == [];
    ValueOfPrefix(s, 0);
    assert ValueOf(s[..1]) == 2;
    ValueOfPrefix(s, 1);
    assert ValueOf(s[..2]) == 22;
    ValueOfPrefix(s, 2);
    assert ValueOf(s[..3]) == 225;
    ValueOfPrefix(s, 3);
    assert ValueOf(s[..4]) == 2259;
  }

  lemma TestSeedDigits4To8(s: string)
    requires IsTestSeedText(s)
    requires ValueOf(s[..4]) == 2259
    ensures AllDigits(s) && ValueOf(s[..8]) == 22591277
  {
    ValueOfPrefix(s, 4);
    assert ValueOf(s[..5]) == 22591;
    ValueOfPrefix(s, 5);
    assert ValueOf(s[..6]) == 225912;
    ValueOfPrefix(s, 6);
    assert ValueOf(s[..7]) == 2259127;
    ValueOfPrefix(s, 7);
    assert ValueOf(s[..8]) == 22591277;
  }

  lemma TestSeedDigits8To12(s: string)
    requires IsTestSeedText(s)
    requires ValueOf(s[..8]) == 22591277
    ensures AllDigits(s) && ValueOf(s[..12]) == 225912776299
  {
    ValueOfPrefix(s, 8);
    assert ValueOf(s[..9]) == 225912776;
    ValueOfPrefix(s, 9);
    assert ValueOf(s[..10]) == 2259127762;
    ValueOfPrefix(s, 10);
    assert ValueOf(s[..11]) == 22591277629;
    ValueOfPrefix(s, 11);
    assert ValueOf(s[..12]) == 225912776299;
  }

  lemma TestSeedDigits12To15(s: string)
    requires IsTestSeedText(s)
    requires ValueOf(s[..12]) == 225912776299
    ensures AllDigits(s) && ValueOf(s[..15]) == 225912776299004
  {
    ValueOfPrefix(s, 12);
    assert ValueOf(s[..13]) == 2259127762990;
    ValueOfPrefix(s, 13);
    assert ValueOf(s[..14]) == 22591277629900;
    ValueOfPrefix(s, 14);
    assert ValueOf(s[..15]) == 225912776299004;
  }

  lemma ValueOfPrefix(s: string, k: nat)
    requires AllDigits(s) && k < |s|
    ensures ValueOf(s[..k + 1]) == ValueOf(s[..k]) * 10 + (s[k] as int - '0' as int)
  {
    assert s[..k + 1][..k] == s[..k];
  }

  lemma TestSeedGrouping()
    ensures GroupThousands("225912776299004") == "225,912,776,299,004"
  {
    var d := "225912776299004";
    assert d[..3] == "225" && d[3..6] == "912" && d[6..9] == "776" && d[9..12] == "299" && d[12..] == "004";
    assert d[..6][..3] == d[..3] && d[..6][3..] == d[3..6];
    assert d[..9][..6] == d[..6] && d[..9][6..] == d[6..9];
    assert d[..12][..9] == d[..9] && d[..12][9..] == d[9..12];
    assert GroupThousands(d[..3]) == "225";
    assert GroupThousands(d[..6]) == "225,912";
    assert GroupThousands(d[..9]) == "225,912,776";
    assert GroupThousands(d[..12]) == "225,912,776,299";
  }

  // ---------------------------------------------------------------------------
  // TimeUnit.toMillis
  // ---------------------------------------------------------------------------

  datatype TimeUnit = Nanoseconds | Microseconds | Milliseconds | Seconds | Minutes | Hours | Days

  /** Units of `u` per millisecond for the finer units, milliseconds per unit otherwise. */
  function Ratio(u: TimeUnit): nat
  {
    match u
    case Nanoseconds => 1_000_000
    case Microseconds => 1_000
    case Milliseconds => 1
    case Seconds => 1_000
    case Minutes => 60_000
    case Hours => 3_600_000
    case Days => 86_400_000
  }

  function Abs(x: int): nat
  {
    if x < 0 then -x else x
  }

  /** The nearest `Long` to `v`. */
  function Clamp(v: int): Long
  {
    if v > LongMax then LongMax else if v < LongMin then LongMin else v
  }

  /** Java's `/` on a positive divisor: the quotient truncated toward zero. */
  function TruncDiv(a: int, b: nat): int
    requires b > 0
  {
    if a >= 0 then a / b else -((-a) / b)
  }

  /**
   * `unit.toMillis(d)`: finer units are divided with truncation toward zero,
   * coarser units are multiplied with saturation at the bounds of `Long`.
   */
  function ToMillis(d: Long, u: TimeUnit): (r: Long)
    ensures u == Milliseconds ==> r == d
    ensures (u == Nanoseconds || u == Microseconds) ==>
              && Abs(r) * Ratio(u) <= Abs(d) < (Abs(r) + 1) * Ratio(u)
              && (r < 0 ==> d < 0) && (r > 0 ==> d > 0)
    ensures (u == Seconds || u == Minutes || u == Hours || u == Days) ==>
              r == Clamp(d * Ratio(u))
  {
    match u
    case Nanoseconds => TruncDiv(d, 1_000_000)
    case Microseconds => TruncDiv(d, 1_000)
    case Milliseconds => d
    case Seconds =>
      if d > 9223372036854775 then LongMax
      else if d < -9223372036854775 then LongMin
      else d * 1_000
    case Minutes =>
      if d > 153722867280912 then LongMax
      else if d < -153722867280912 then LongMin
      else d * 60_000
    case Hours =>
      if d > 2562047788015 then LongMax
      else if d < -2562047788015 then LongMin
      else d * 3_600_000
    case Days =>
      if d > 106751991167 then LongMax
      else if d < -106751991167 then LongMin
      else d * 86_400_000
  }

  // ---------------------------------------------------------------------------
  // The subscribers, the producer and the scenario
  // ---------------------------------------------------------------------------

  class SplitterSubscriber {
    const name: string
    const periodMillis: Long
    /** Every item received, in order of receipt. */
    var seen: seq<int>

    /** `seen` starts empty; the period is kept in milliseconds. */
    constructor (name: string, period: Long, unit: TimeUnit)
      ensures this.name == name
      ensures periodMillis == ToMillis(period, unit)
      ensures seen == []
    {
      this.name := name;
      periodMillis := ToMillis(period, unit);
      seen := [];
    }

    /**
     * `doSteps`: receive from the subscription until it reports end of
     * stream, recording each item; `topic` is what the subscription delivers.
     */
    method DoSteps(topic: seq<int>)
      modifies this
      ensures seen == old(seen) + topic
    {
      for i := 0 to |topic|
        invariant seen == old(seen) + topic[..i]
      {
        assert topic[..i + 1] == topic[..i] + [topic[i]];
        seen := seen + [topic[i]];
      }
      assert topic[..|topic|] == topic;
    }
  }

  /** The sending side of the broadcast topic. */
  class Topic {
    /** The items published, in order. */
    var published: seq<int>
    var closed: bool

    constructor ()
      ensures published == [] && !closed
    {
      published, closed := [], false;
    }

    /** `send`: publishes `x`, or fails (`ok` false) once the topic is closed. */
    method Send(x: int) returns (ok: bool)
      modifies this
      ensures ok == !old(closed)
      ensures published == if ok then old(published) + [x] else old(published)
      ensures closed == old(closed)
    {
      ok := !closed;
      if ok {
        published := published + [x];
      }
    }

    /** `close`: no item is published after it. */
    method Close()
      modifies this
      ensures closed && published == old(published)
    {
      closed := true;
    }
  }

  /** `testSequence`: the integers 1 to 10 in increasing order. */
  function TestSequence(): (r: seq<int>)
    ensures |r| == 10
    ensures forall i :: 0 <= i < |r| ==> r[i] == i + 1
  {
    [1, 2, 3, 4, 5, 6, 7, 8, 9, 10]
  }

  /**
   * `producer`: publishes the test sequence in order, then closes the topic.
   * On a topic that is already closed the first send fails and nothing is
   * published.
   */
  method Producer(topic: Topic) returns (ok: bool)
    modifies topic
    ensures ok == !old(topic.closed)
    ensures ok ==> topic.published == old(topic.published) + TestSequence()
    ensures !ok ==> topic.published == old(topic.published)
    ensures topic.closed
  {
    var items := TestSequence();
    for i := 0 to |items|
      invariant topic.closed == old(topic.closed)
      invariant i > 0 ==> !old(topic.closed)
      invariant topic.published == old(topic.published) + items[..i]
    {
      var sent := topic.Send(items[i]);
      if !sent {
        return false;
      }
      assert items[..i + 1] == items[..i] + [items[i]];
    }
    assert items[..|items|] == items;
    topic.Close();
    ok := true;
  }

  /**
   * `split2In9VirtualSeconds` without its clock: both subscriptions are opened
   * before the producer starts, so each delivers the whole published sequence,
   * and both subscribers end up having seen exactly 1..10, in order, whatever
   * their pace.
   */
  method SplitTwoSubscribers() returns (fastSeen: seq<int>, slowSeen: seq<int>, fastPeriod: Long, slowPeriod: Long)
    ensures fastSeen == TestSequence() && slowSeen == TestSequence()
    ensures fastPeriod == 100 && slowPeriod == 1000
  {
    var fast := new SplitterSubscriber("Fast!", 100, Milliseconds);
    var slow := new SplitterSubscriber("slow ", 1, Seconds);
    var topic := new Topic();
    var ok := Producer(topic);
    fast.DoSteps(topic.published);
    slow.DoSteps(topic.published);
    fastSeen, slowSeen := fast.seen, slow.seen;
    fastPeriod, slowPeriod := fast.periodMillis, slow.periodMillis;
  }
}

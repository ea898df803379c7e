/** The log's fixed-width timestamps, compared as strings. */
module Timestamp {
  import opened CivilDate
  import opened Ordering

  /** A clock reading: whole seconds since the Unix epoch and milliseconds. */
  datatype Instant = Instant(secs: nat, millis: nat)

  /** A clock reading broken down into calendar date and time of day. */
  datatype Stamp = Stamp(date: Date, hour: nat, minute: nat, second: nat, millis: nat)

  function ToStamp(t: Instant): Stamp {
    var tod := t.secs % 86400;
    Stamp(CivilFromDays(t.secs / 86400), tod / 3600, tod % 3600 / 60, tod % 60, t.millis)
  }

  function Digit(n: nat): char
    requires n < 10
  {
    '0' + n as char
  }

  function Decimal(n: nat): (s: string)
    ensures |s| > 0
  {
    if n < 10 then [Digit(n)] else Decimal(n / 10) + [Digit(n % 10)]
  }

  /** `n` in decimal, padded on the left with zeros to at least `width` characters. */
  function Padded(n: nat, width: nat): string {
    var d := Decimal(n);
    if |d| >= width then d else seq(width - |d|, _ => '0') + d
  }

  function Concat(parts: seq<string>): string {
    if parts == [] then "" else parts[0] + Concat(parts[1..])
  }

  /** The fields of `YYYY-MM-DD`; a negative year keeps its sign inside the width. */
  function DateFields(d: Date): seq<string>
    requires Valid(d)
  {
    [if d.year >= 0 then Padded(d.year, 4) else "-" + Padded(-d.year, 3),
     "-", Padded(d.month, 2), "-", Padded(d.day, 2)]
  }

  function DateString(d: Date): string
    requires Valid(d)
  {
    Concat(DateFields(d))
  }

  /** `YYYY-MM-DDThh:mm:ss.mmmZ` */
  function UtcFields(p: Stamp): seq<string>
    requires Valid(p.date)
  {
    DateFields(p.date) + ["T", Padded(p.hour, 2), ":", Padded(p.minute, 2), ":", Padded(p.second, 2),
                          ".", Padded(p.millis, 3), "Z"]
  }

  function UtcString(t: Instant): string {
    CivilRoundTrip(t.secs / 86400);
    Concat(UtcFields(ToStamp(t)))
  }

  // ---- Fixed-width decimals compare as numbers ----

  predicate LexLess(a: string, b: string) { LexLe(a, b) && a != b }

  function Pow10(w: nat): nat { if w == 0 then 1 else 10 * Pow10(w - 1) }

  lemma {:induction false} LexAppend(a: string, b: string, x: string, y: string)
    requires |a| == |b| && (LexLess(a, b) || (a == b && LexLess(x, y)))
    ensures LexLess(a + x, b + y)
  {
    if a == [] {
      assert a + x == x && b + y == y;
    } else {
      assert (a + x)[1..] == a[1..] + x && (b + y)[1..] == b[1..] + y;
      assert a == [a[0]] + a[1..] && b == [b[0]] + b[1..];
      if a[0] == b[0] { LexAppend(a[1..], b[1..], x, y); }
    }
  }

  lemma {:induction false} DecimalWidth(n: nat, w: nat)
    requires n < Pow10(w) && w > 0
    ensures |Decimal(n)| <= w
  {
    if n >= 10 { DecimalWidth(n / 10, w - 1); }
  }

  lemma {:induction false} PaddedStep(n: nat, w: nat)
    requires n < Pow10(w) && w > 1
    ensures |Padded(n, w)| == w && Padded(n, w) == Padded(n / 10, w - 1) + [Digit(n % 10)]
  {
    DecimalWidth(n, w);
    DecimalWidth(n / 10, w - 1);
  }

  lemma {:induction false} PaddedOrder(m: nat, n: nat, w: nat)
    requires m < n < Pow10(w) && w > 0
    ensures |Padded(m, w)| == w == |Padded(n, w)| && LexLess(Padded(m, w), Padded(n, w))
  {
    if w == 1 {
      assert Pow10(1) == 10 * Pow10(0);
    } else {
      PaddedStep(m, w);
      PaddedStep(n, w);
      assert LexLess([Digit(m % 10)], [Digit(n % 10)]) || m / 10 < n / 10;
      if m / 10 < n / 10 { PaddedOrder(m / 10, n / 10, w - 1); }
      LexAppend(Padded(m / 10, w - 1), Padded(n / 10, w - 1), [Digit(m % 10)], [Digit(n % 10)]);
    }
  }

  // ---- Timestamps sort in time order ----

  predicate Earlier(t: Instant, u: Instant) {
    t.secs < u.secs || (t.secs == u.secs && t.millis < u.millis)
  }

  predicate InRange(p: Stamp) {
    && Valid(p.date) && 0 <= p.date.year <= 9999
    && p.hour < 24 && p.minute < 60 && p.second < 60 && p.millis < 1000
  }

  /** A reading before the year 10000. */
  predicate FourDigitYear(t: Instant) {
    t.millis < 1000 && t.secs < 253_402_300_800
  }

  /** Field lists of equal widths compare at their first difference. */
  lemma {:induction false} FieldsOrder(p: seq<string>, q: seq<string>, k: nat)
    requires k < |p| == |q| && p[..k] == q[..k] && LexLess(p[k], q[k])
    requires forall i :: 0 <= i < |p| ==> |p[i]| == |q[i]|
    ensures LexLess(Concat(p), Concat(q))
  {
    assert |p[0]| == |q[0]|;
    if k > 0 {
      assert p[0] == p[..k][0] == q[..k][0] == q[0];
      assert p[1..][..k - 1] == p[..k][1..] && q[1..][..k - 1] == q[..k][1..];
      FieldsOrder(p[1..], q[1..], k - 1);
    }
    LexAppend(p[0], q[0], Concat(p[1..]), Concat(q[1..]));
  }

  lemma PaddedWidth(n: nat, w: nat)
    requires n < Pow10(w) && w > 0
    ensures |Padded(n, w)| == w
  {
    DecimalWidth(n, w);
  }

  lemma PowersOfTen()
    ensures Pow10(2) == 100 && Pow10(3) == 1000 && Pow10(4) == 10_000
  {
    assert Pow10(1) == 10 * Pow10(0);
    assert Pow10(3) == 10 * Pow10(2);
  }

  const WIDTHS: seq<nat> := [4, 1, 2, 1, 2, 1, 2, 1, 2, 1, 2, 1, 3, 1]
  const PUNCTUATION := [' ', '-', ' ', '-', ' ', 'T', ' ', ':', ' ', ':', ' ', '.', ' ', 'Z']

  /** The numbers behind the fields; punctuation counts as zero. */
  function Numbers(p: Stamp): seq<int> {
    [p.date.year, 0, p.date.month, 0, p.date.day, 0, p.hour, 0, p.minute, 0, p.second, 0, p.millis, 0]
  }

  /** `f` prints the numbers `n` at their widths, with the punctuation between them. */
  ghost predicate Prints(f: seq<string>, n: seq<int>) {
    && |f| == |n| == 14
    && (forall i :: 0 <= i < 14 && i % 2 == 1 ==> f[i] == [PUNCTUATION[i]])
    && (forall i :: 0 <= i < 14 && i % 2 == 0 ==> 0 <= n[i] < Pow10(WIDTHS[i]) && f[i] == Padded(n[i], WIDTHS[i]))
  }

  lemma FieldsAreNumbers(p: Stamp)
    requires InRange(p)
    ensures Prints(UtcFields(p), Numbers(p))
  {
    hide Padded;
    PowersOfTen();
  }

  lemma FieldWidth(f: seq<string>, n: seq<int>, i: nat)
    requires Prints(f, n) && i < 14
    ensures |f[i]| == WIDTHS[i]
  {
    if i % 2 == 0 { PaddedWidth(n[i], WIDTHS[i]); }
    hide Padded, Pow10;
  }

  /** The first `w` fields of two stamps sort by their first different number. */
  lemma FieldsDiffer(f: seq<string>, m: seq<int>, g: seq<string>, n: seq<int>, k: nat, w: nat)
    requires Prints(f, m) && Prints(g, n) && k < w <= 14 && k % 2 == 0 && m[k] < n[k]
    requires forall i :: 0 <= i < k ==> m[i] == n[i]
    ensures |Concat(f[..w])| == |Concat(g[..w])| && LexLess(Concat(f[..w]), Concat(g[..w]))
  {
    forall i | 0 <= i < 14 ensures |f[i]| == |g[i]| {
      FieldWidth(f, m, i);
      FieldWidth(g, n, i);
    }
    forall i | 0 <= i < k ensures f[i] == g[i] {
      assert m[i] == n[i];
    }
    assert f[k] == Padded(m[k], WIDTHS[k]) && g[k] == Padded(n[k], WIDTHS[k]) && n[k] < Pow10(WIDTHS[k]);
    hide Prints, Padded, Pow10;
    PaddedOrder(m[k], n[k], WIDTHS[k]);
    FieldsOrder(f[..w], g[..w], k);
    SameWidth(f[..w], g[..w]);
  }

  lemma StampsSort(p: Stamp, q: Stamp, k: nat, w: nat)
    requires InRange(p) && InRange(q) && DiffersAt(p, q, k) && k < w <= 14
    ensures var f, g := Concat(UtcFields(p)[..w]), Concat(UtcFields(q)[..w]); |f| == |g| && LexLess(f, g)
  {
    FieldsAreNumbers(p);
    FieldsAreNumbers(q);
    FieldsDiffer(UtcFields(p), Numbers(p), UtcFields(q), Numbers(q), k, w);
  }

  predicate DiffersAt(p: Stamp, q: Stamp, k: nat) {
    && k < 14 && k % 2 == 0 && Numbers(p)[k] < Numbers(q)[k]
    && forall i :: 0 <= i < k ==> Numbers(p)[i] == Numbers(q)[i]
  }

  lemma StampInRange(t: Instant)
    requires FourDigitYear(t)
    ensures InRange(ToStamp(t))
  {
    CivilRoundTrip(t.secs / 86400);
    FourDigitYears(t);
  }

  /** The bound in seconds is the bound in years. */
  lemma FourDigitYears(t: Instant)
    ensures 0 <= ToStamp(t).date.year <= 9999 <==> t.secs < 253_402_300_800
  {
    var day := t.secs / 86400;
    EndOfYear9999();
    EpochDay();
    if day > 0 {
      DatesFollowDays(0, day);
    }
    if day < 2_932_897 {
      DatesFollowDays(day, 2_932_897);
    } else if day > 2_932_897 {
      DatesFollowDays(2_932_897, day);
    }
    hide CivilFromDays;
  }

  lemma FirstDifference(t: Instant, u: Instant) returns (k: nat)
    requires Earlier(t, u)
    ensures DiffersAt(ToStamp(t), ToStamp(u), k)
  {
    hide CivilFromDays, DiffersAt;
    var c, d := t.secs / 86400, u.secs / 86400;
    if c < d {
      DatesFollowDays(c, d);
      k := DateDifference(ToStamp(t), ToStamp(u));
    } else {
      k := TimeDifference(ToStamp(t), ToStamp(u), t.secs % 86400, u.secs % 86400);
    }
  }

  lemma DateDifference(p: Stamp, q: Stamp) returns (k: nat)
    requires Before(p.date, q.date)
    ensures DiffersAt(p, q, k)
  {
    k := if p.date.year < q.date.year then 0 else if p.date.month < q.date.month then 2 else 4;
  }

  lemma ClockParts(a: nat)
    ensures a == 3600 * (a / 3600) + 60 * (a % 3600 / 60) + a % 60
    ensures a % 3600 / 60 < 60 && a % 60 < 60
  {
    assert a % 3600 % 60 == a % 60;
  }

  lemma TimeDifference(p: Stamp, q: Stamp, a: nat, b: nat) returns (k: nat)
    requires p.date == q.date && (a < b || (a == b && p.millis < q.millis))
    requires p.hour == a / 3600 && p.minute == a % 3600 / 60 && p.second == a % 60
    requires q.hour == b / 3600 && q.minute == b % 3600 / 60 && q.second == b % 60
    ensures DiffersAt(p, q, k)
  {
    ClockParts(a);
    ClockParts(b);
    k := if p.hour < q.hour then 6 else if p.minute < q.minute then 8 else if p.second < q.second then 10 else 12;
  }

  /** Through year 9999, timestamps compare as strings exactly as their instants do. */
  lemma TimestampOrder(t: Instant, u: Instant)
    requires FourDigitYear(t) && FourDigitYear(u)
    ensures Earlier(t, u) <==> LexLess(UtcString(t), UtcString(u))
  {
    if Earlier(t, u) {
      EarlierSortsFirst(t, u);
    } else if Earlier(u, t) {
      EarlierSortsFirst(u, t);
      LexTotal(UtcString(t), UtcString(u));
    }
  }

  lemma EarlierSortsFirst(t: Instant, u: Instant)
    requires FourDigitYear(t) && FourDigitYear(u) && Earlier(t, u)
    ensures LexLess(UtcString(t), UtcString(u))
  {
    var k := FirstDifference(t, u);
    var p, q := ToStamp(t), ToStamp(u);
    StampInRange(t);
    StampInRange(u);
    hide FourDigitYear, Earlier, LexLess, ToStamp;
    StampsSort(p, q, k, 14);
    assert UtcFields(p)[..14] == UtcFields(p) && UtcFields(q)[..14] == UtcFields(q);
  }

  // ---- What a timestamp says ----

  /** The number a text of digits stands for. */
  function Value(s: string): int {
    if s == "" then 0 else 10 * Value(s[..|s| - 1]) + (s[|s| - 1] as int - '0' as int)
  }

  lemma ValueNext(s: string, c: char)
    ensures Value(s + [c]) == 10 * Value(s) + (c as int - '0' as int)
  {
    assert (s + [c])[..|s|] == s;
  }

  lemma {:induction false} ValueOfPadded(n: nat, w: nat)
    requires n < Pow10(w) && w > 0
    ensures Value(Padded(n, w)) == n
  {
    if w == 1 {
      assert Pow10(1) == 10 * Pow10(0);
      assert Padded(n, 1) == "" + [Digit(n)];
      ValueNext("", Digit(n));
    } else {
      PaddedStep(n, w);
      ValueOfPadded(n / 10, w - 1);
      ValueNext(Padded(n / 10, w - 1), Digit(n % 10));
    }
  }

  /** Where the fields start, and the whole length. */
  const OFFSETS: seq<nat> := [0, 4, 5, 7, 8, 10, 11, 13, 14, 16, 17, 19, 20, 23, 24]

  lemma {:induction false} PieceAt(f: seq<string>, offsets: seq<nat>, k: nat)
    requires |offsets| == |f| + 1 && k < |f| && forall i :: 0 <= i < |f| ==> offsets[i + 1] == offsets[i] + |f[i]|
    ensures offsets[0] <= offsets[k] <= offsets[k + 1] <= offsets[0] + |Concat(f)|
    ensures Concat(f)[offsets[k] - offsets[0]..offsets[k + 1] - offsets[0]] == f[k]
    ensures k == |f| - 1 ==> |Concat(f)| == offsets[|f|] - offsets[0]
  {
    var rest := f[1..];
    if k > 0 {
      forall i | 0 <= i < |rest| ensures offsets[1..][i + 1] == offsets[1..][i] + |rest[i]| {
        assert offsets[i + 2] == offsets[i + 1] + |f[i + 1]|;
      }
      PieceAt(rest, offsets[1..], k - 1);
      var from, to := offsets[k] - offsets[1], offsets[k + 1] - offsets[1];
      assert (f[0] + Concat(rest))[|f[0]| + from..|f[0]| + to] == Concat(rest)[from..to];
    }
  }

  lemma OffsetsAreWidths()
    ensures forall i :: 0 <= i < 14 ==> OFFSETS[i + 1] == OFFSETS[i] + WIDTHS[i] && WIDTHS[i] > 0
    ensures OFFSETS[0] == 0 && OFFSETS[14] == 24
  {
  }

  lemma FieldsLineUp(f: seq<string>, n: seq<int>)
    requires Prints(f, n)
    ensures |f| == 14 && forall i :: 0 <= i < |f| ==> OFFSETS[i + 1] == OFFSETS[i] + |f[i]|
  {
    OffsetsAreWidths();
    forall i | 0 <= i < 14 ensures |f[i]| == WIDTHS[i] { FieldWidth(f, n, i); }
    hide OFFSETS, WIDTHS;
  }

  lemma PrintedPiece(f: seq<string>, n: seq<int>, k: nat, from: nat, to: nat)
    requires Prints(f, n) && k < 14 && from == OFFSETS[k] && to == OFFSETS[k + 1]
    ensures |Concat(f)| == 24 && from < to <= 24
    ensures k % 2 == 1 ==> Concat(f)[from] == PUNCTUATION[k]
    ensures k % 2 == 0 ==> Value(Concat(f)[from..to]) == n[k]
  {
    FieldsLineUp(f, n);
    OffsetsAreWidths();
    hide OFFSETS, WIDTHS, PUNCTUATION, Concat, Value, Padded;
    PieceAt(f, OFFSETS, 13);
    PieceAt(f, OFFSETS, k);
    FieldWidth(f, n, k);
    if k % 2 == 0 {
      assert f[k] == Padded(n[k], WIDTHS[k]) && 0 <= n[k] < Pow10(WIDTHS[k]);
      hide Prints, Pow10;
      ValueOfPadded(n[k], WIDTHS[k]);
    }
  }

  lemma PrintedMarks(f: seq<string>, n: seq<int>)
    requires Prints(f, n)
    ensures var s := Concat(f);
            && |s| == 24 && s[4] == '-' && s[7] == '-' && s[10] == 'T' && s[13] == ':' && s[16] == ':'
            && s[19] == '.' && s[23] == 'Z'
  {
    hide Prints, Concat;
    PrintedPiece(f, n, 1, 4, 5);
    PrintedPiece(f, n, 3, 7, 8);
    PrintedPiece(f, n, 5, 10, 11);
    PrintedPiece(f, n, 7, 13, 14);
    PrintedPiece(f, n, 9, 16, 17);
    PrintedPiece(f, n, 11, 19, 20);
    PrintedPiece(f, n, 13, 23, 24);
  }

  lemma PrintedDate(f: seq<string>, n: seq<int>)
    requires Prints(f, n)
    ensures |Concat(f)| == 24
    ensures var s := Concat(f); Value(s[..4]) == n[0] && Value(s[5..7]) == n[2] && Value(s[8..10]) == n[4]
  {
    hide Concat, Value;
    PrintedPiece(f, n, 0, 0, 4);
    assert Concat(f)[0..4] == Concat(f)[..4];
    PrintedPiece(f, n, 2, 5, 7);
    PrintedPiece(f, n, 4, 8, 10);
  }

  lemma PrintedTime(f: seq<string>, n: seq<int>)
    requires Prints(f, n)
    ensures |Concat(f)| == 24
    ensures var s := Concat(f);
            && Value(s[11..13]) == n[6] && Value(s[14..16]) == n[8] && Value(s[17..19]) == n[10]
            && Value(s[20..23]) == n[12]
  {
    hide Concat, Value;
    PrintedPiece(f, n, 6, 11, 13);
    PrintedPiece(f, n, 8, 14, 16);
    PrintedPiece(f, n, 10, 17, 19);
    PrintedPiece(f, n, 12, 20, 23);
  }

  /**
   A printed stamp reads `YYYY-MM-DDThh:mm:ss.mmmZ`, and its numbers are those of the instant: the days up
   to its date, the time of day and the milliseconds add up to the reading.
   */
  lemma UtcStringReads(t: Instant)
    requires FourDigitYear(t)
    ensures var s := UtcString(t);
            && |s| == 24 && s[4] == '-' && s[7] == '-' && s[10] == 'T' && s[13] == ':' && s[16] == ':'
            && s[19] == '.' && s[23] == 'Z'
            && Valid(Date(Value(s[..4]), Value(s[5..7]), Value(s[8..10])))
            && t.secs == DaysFromCivil(Date(Value(s[..4]), Value(s[5..7]), Value(s[8..10]))) * 86400
                         + Value(s[11..13]) * 3600 + Value(s[14..16]) * 60 + Value(s[17..19])
            && Value(s[11..13]) < 24 && Value(s[14..16]) < 60 && Value(s[17..19]) < 60
            && t.millis == Value(s[20..23])
  {
    StampInRange(t);
    var p := ToStamp(t);
    assert UtcString(t) == Concat(UtcFields(p));
    FieldsAreNumbers(p);
    PrintedMarks(UtcFields(p), Numbers(p));
    PrintedDate(UtcFields(p), Numbers(p));
    PrintedTime(UtcFields(p), Numbers(p));
    CivilRoundTrip(t.secs / 86400);
    ClockParts(t.secs % 86400);
    hide UtcString, Concat, UtcFields, Value, CivilFromDays, DaysFromCivil, Prints, Valid;
    assert p.date == Date(p.date.year, p.date.month, p.date.day);
  }

  /** Past year 9999 the fifth digit breaks the order: the last second of 9999 sorts after its successor. */
  lemma TimestampOrderEnds(t: Instant, u: Instant)
    requires t == Instant(253_402_300_799, 0) && u == Instant(253_402_300_800, 0)
    ensures Earlier(t, u) && !LexLess(UtcString(t), UtcString(u))
  {
    EndOfYear9999();
    assert t.secs / 86400 == 2_932_896 && u.secs / 86400 == 2_932_897;
    StampHead(ToStamp(t));
    StampHead(ToStamp(u));
  }

  /** Text order is the order of time on all readings below a bound. */
  ghost predicate SortsBelow(bound: nat) {
    forall t: Instant, u: Instant ::
      t.secs < bound && u.secs < bound && t.millis < 1000 && u.millis < 1000 ==>
        (Earlier(t, u) <==> LexLess(UtcString(t), UtcString(u)))
  }

  /** It is so exactly up to the end of the year 9999. */
  lemma TimestampOrderExactly(bound: nat)
    ensures SortsBelow(bound) <==> bound <= 253_402_300_800
  {
    if bound <= 253_402_300_800 {
      forall t: Instant, u: Instant | t.secs < bound && u.secs < bound && t.millis < 1000 && u.millis < 1000
        ensures Earlier(t, u) <==> LexLess(UtcString(t), UtcString(u))
      {
        TimestampOrder(t, u);
      }
    } else {
      var t, u := Instant(253_402_300_799, 0), Instant(253_402_300_800, 0);
      TimestampOrderEnds(t, u);
      hide LexLess, UtcString;
      assert t.secs < bound && u.secs < bound;
    }
  }

  // ---- Stamps without milliseconds ----

  /** `YYYY-MM-DDThh:mm:ss` */
  function UtcHead(secs: nat): string {
    CivilRoundTrip(secs / 86400);
    Concat(UtcFields(ToStamp(Instant(secs, 0)))[..11])
  }

  /** A timestamp of ISO 8601 to the second: `YYYY-MM-DDThh:mm:ssZ` */
  function SecondsString(secs: nat): string {
    UtcHead(secs) + "Z"
  }

  lemma {:induction false} ConcatSplit(a: seq<string>, b: seq<string>)
    ensures Concat(a + b) == Concat(a) + Concat(b)
  {
    if a == [] {
      assert a + b == b;
    } else {
      assert (a + b)[1..] == a[1..] + b;
      ConcatSplit(a[1..], b);
    }
  }

  lemma HeadOfStamp(t: Instant)
    ensures UtcString(t) == UtcHead(t.secs) + ("." + (Padded(t.millis, 3) + "Z"))
  {
    CivilRoundTrip(t.secs / 86400);
    var f, g := UtcFields(ToStamp(t)), UtcFields(ToStamp(Instant(t.secs, 0)));
    assert f == g[..11] + [".", Padded(t.millis, 3), "Z"];
    ConcatSplit(g[..11], [".", Padded(t.millis, 3), "Z"]);
    assert Concat(["Z"]) == "Z" + Concat([]);
    assert Concat([Padded(t.millis, 3), "Z"]) == Padded(t.millis, 3) + Concat(["Z"]);
  }

  lemma HeadsSort(s: nat, t: nat)
    requires s < t < 253_402_300_800
    ensures |UtcHead(s)| == |UtcHead(t)| && LexLess(UtcHead(s), UtcHead(t))
  {
    var a, b := Instant(s, 0), Instant(t, 0);
    var k := FirstDifference(a, b);
    var p, q := ToStamp(a), ToStamp(b);
    assert p.millis == 0 == q.millis;
    StampInRange(a);
    StampInRange(b);
    assert k < 11;
    hide FourDigitYear, LexLess, ToStamp, DiffersAt;
    StampsSort(p, q, k, 11);
  }

  lemma {:induction false} SameWidth(p: seq<string>, q: seq<string>)
    requires |p| == |q| && forall i :: 0 <= i < |p| ==> |p[i]| == |q[i]|
    ensures |Concat(p)| == |Concat(q)|
  {
    if p != [] { SameWidth(p[1..], q[1..]); }
  }

  /** A reading sorts before a stamp to the second exactly when its own second is not a later one. */
  lemma SecondsOrder(t: Instant, secs: nat)
    requires FourDigitYear(t) && secs < 253_402_300_800
    ensures LexLess(UtcString(t), SecondsString(secs)) <==> t.secs <= secs
  {
    HeadOfStamp(t);
    var tail := "." + (Padded(t.millis, 3) + "Z");
    hide UtcString, UtcHead, Padded, FourDigitYear;
    if t.secs < secs {
      HeadsSort(t.secs, secs);
      LexAppend(UtcHead(t.secs), UtcHead(secs), tail, "Z");
    } else if t.secs > secs {
      HeadsSort(secs, t.secs);
      LexAppend(UtcHead(secs), UtcHead(t.secs), "Z", tail);
      LexTotal(UtcString(t), SecondsString(secs));
    } else {
      LexAppend(UtcHead(secs), UtcHead(secs), tail, "Z");
    }
  }

  lemma StampHead(p: Stamp)
    requires Valid(p.date) && (p.date.year == 9999 || p.date.year == 10_000)
    ensures var s := Concat(UtcFields(p)); |s| > 0 && s[0] == if p.date.year == 9999 then '9' else '1'
  {
    assert Decimal(9999)[0] == '9' && |Decimal(9999)| == 4;
    assert Decimal(1000)[0] == '1' && |Decimal(1000)| == 4;
    assert Decimal(10_000) == Decimal(1000) + [Digit(0)];
    assert Concat(UtcFields(p))[0] == UtcFields(p)[0][0];
  }

  lemma EndOfYear9999()
    ensures CivilFromDays(2_932_896) == Date(9999, 12, 31)
    ensures CivilFromDays(2_932_897) == Date(10_000, 1, 1)
  {
    var c := Date(9999, 12, 31);
    LastDayOf9999(c);
    DaysRoundTrip(c);
    FollowingDay(2_932_896, c);
  }

  lemma LastDayOf9999(c: Date)
    requires c == Date(9999, 12, 31)
    ensures Valid(c) && DaysFromCivil(c) == 2_932_896
  {
    assert DaysBeforeYear(9999) == 3_651_694;
    BeforeMonth(9999, 12);
  }
}

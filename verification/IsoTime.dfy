/** Timestamps as text whose BINARY order is time order: `new Date().toISOString()`, of fixed
    width, and the stamps of the server, whose fraction may be missing. */
module IsoTime {
  import opened Digits
  import opened LocalStore
  import opened PendingOps

  datatype Instant = Instant(year: nat, month: nat, day: nat, hour: nat, minute: nat, second: nat, milli: nat)

  predicate Valid(t: Instant) {
    t.year < 10000 && t.month < 100 && t.day < 100 && t.hour < 100 && t.minute < 100 && t.second < 100 && t.milli < 1000
  }

  function Digit(n: nat): char
    requires n < 10
  {
    '0' + n as char
  }

  function Power(width: nat): nat {
    if width == 0 then 1 else 10 * Power(width - 1)
  }

  /** `n` in `width` digits, zero-padded. */
  function Pad(n: nat, width: nat): (s: string)
    requires n < Power(width)
    ensures |s| == width
  {
    if width == 0 then "" else Pad(n / 10, width - 1) + [Digit(n % 10)]
  }

  /** Fields of the text, most significant first, each with the mark that follows it. */
  function Fields(t: Instant): seq<(nat, nat, char)> {
    [(t.year, 4, '-'), (t.month, 2, '-'), (t.day, 2, 'T'), (t.hour, 2, ':'), (t.minute, 2, ':'), (t.second, 2, '.'), (t.milli, 3, 'Z')]
  }

  ghost predicate Fit(fields: seq<(nat, nat, char)>) {
    forall f | f in fields :: f.0 < Power(f.1)
  }

  function Render(fields: seq<(nat, nat, char)>): string
    requires Fit(fields)
  {
    if fields == [] then "" else Pad(fields[0].0, fields[0].1) + [fields[0].2] + Render(fields[1..])
  }

  /** The fields, compared from the most significant on. */
  predicate FieldsLess(a: seq<(nat, nat, char)>, b: seq<(nat, nat, char)>)
    requires |a| == |b|
  {
    a != [] && (a[0].0 < b[0].0 || (a[0].0 == b[0].0 && FieldsLess(a[1..], b[1..])))
  }

  lemma {:induction false} TextLessPrefix(a: string, b: string, x: string, y: string)
    requires |a| == |b|
    ensures TextLess(a + x, b + y) <==> TextLess(a, b) || (a == b && TextLess(x, y))
    decreases |a|
  {
    if a == "" {
      assert a + x == x && b + y == y;
    } else {
      assert (a + x)[1..] == a[1..] + x && (b + y)[1..] == b[1..] + y;
      TextLessPrefix(a[1..], b[1..], x, y);
      assert a == [a[0]] + a[1..] && b == [b[0]] + b[1..];
    }
  }

  lemma {:induction false} PadOrder(m: nat, n: nat, width: nat)
    requires m < Power(width) && n < Power(width)
    ensures TextLess(Pad(m, width), Pad(n, width)) <==> m < n
    ensures Pad(m, width) == Pad(n, width) ==> m == n
    decreases width
  {
    if width > 0 {
      PadOrder(m / 10, n / 10, width - 1);
      var a, b := [Digit(m % 10)], [Digit(n % 10)];
      TextLessPrefix(Pad(m / 10, width - 1), Pad(n / 10, width - 1), a, b);
      assert TextLess(a, b) <==> m % 10 < n % 10;
      if Pad(m, width) == Pad(n, width) {
        assert Pad(m, width)[..width - 1] == Pad(m / 10, width - 1) && Pad(n, width)[..width - 1] == Pad(n / 10, width - 1);
        assert Pad(m, width)[width - 1] == a[0] && Pad(n, width)[width - 1] == b[0];
      }
    }
  }

  ghost predicate SameShape(a: seq<(nat, nat, char)>, b: seq<(nat, nat, char)>) {
    |a| == |b| && forall i | 0 <= i < |a| :: a[i].1 == b[i].1 && a[i].2 == b[i].2
  }

  lemma {:induction false} RenderOrder(a: seq<(nat, nat, char)>, b: seq<(nat, nat, char)>)
    requires SameShape(a, b) && Fit(a) && Fit(b)
    ensures TextLess(Render(a), Render(b)) <==> FieldsLess(a, b)
    decreases |a|
  {
    if a != [] {
      assert forall i | 0 <= i < |a| - 1 :: a[1..][i].1 == b[1..][i].1 && a[1..][i].2 == b[1..][i].2;
      RenderOrder(a[1..], b[1..]);
      assert a[0].1 == b[0].1 && a[0].2 == b[0].2;
      var pa, pb, mark := Pad(a[0].0, a[0].1), Pad(b[0].0, b[0].1), [a[0].2];
      PadOrder(a[0].0, b[0].0, a[0].1);
      assert Render(a) == pa + (mark + Render(a[1..])) && Render(b) == pb + (mark + Render(b[1..]));
      TextLessPrefix(pa, pb, mark + Render(a[1..]), mark + Render(b[1..]));
      TextLessPrefix(mark, mark, Render(a[1..]), Render(b[1..]));
      TextLessIsTotal(mark, mark);
    }
  }

  lemma FieldsFit(t: Instant)
    requires Valid(t)
    ensures Fit(Fields(t))
  {
    assert Power(1) == 10 && Power(2) == 100 && Power(3) == 1000 && Power(4) == 10000;
  }

  function Text(t: Instant): string
    requires Valid(t)
  {
    FieldsFit(t);
    Render(Fields(t))
  }

  predicate Earlier(a: Instant, b: Instant) {
    || a.year < b.year
    || (a.year == b.year && (a.month < b.month
    || (a.month == b.month && (a.day < b.day
    || (a.day == b.day && (a.hour < b.hour
    || (a.hour == b.hour && (a.minute < b.minute
    || (a.minute == b.minute && (a.second < b.second
    || (a.second == b.second && a.milli < b.milli)))))))))))
  }

  predicate EarlierInHour(a: Instant, b: Instant) {
    || a.minute < b.minute
    || (a.minute == b.minute && (a.second < b.second || (a.second == b.second && a.milli < b.milli)))
  }

  lemma EarlierByMinute(a: Instant, b: Instant)
    ensures FieldsLess(Fields(a)[4..], Fields(b)[4..]) <==> EarlierInHour(a, b)
  {
    FieldsLessAt(Fields(a), Fields(b), 4);
    FieldsLessAt(Fields(a), Fields(b), 5);
    FieldsLessAt(Fields(a), Fields(b), 6);
    assert Fields(a)[7..] == [];
  }

  lemma EarlierByFields(a: Instant, b: Instant)
    ensures FieldsLess(Fields(a), Fields(b)) <==> Earlier(a, b)
  {
    EarlierByMinute(a, b);
    FieldsLessAt(Fields(a), Fields(b), 3);
    FieldsLessAt(Fields(a), Fields(b), 2);
    FieldsLessAt(Fields(a), Fields(b), 1);
    FieldsLessAt(Fields(a), Fields(b), 0);
    assert Fields(a)[0..] == Fields(a) && Fields(b)[0..] == Fields(b);
  }

  lemma FieldsLessAt(a: seq<(nat, nat, char)>, b: seq<(nat, nat, char)>, k: nat)
    requires |a| == |b| && k < |a|
    ensures FieldsLess(a[k..], b[k..]) <==> a[k].0 < b[k].0 || (a[k].0 == b[k].0 && FieldsLess(a[k + 1..], b[k + 1..]))
  {
    assert a[k..][1..] == a[k + 1..] && b[k..][1..] == b[k + 1..];
  }

  /** ORDER BY created_at on text is ORDER BY time. */
  lemma TextOrderIsTimeOrder(a: Instant, b: Instant)
    requires Valid(a) && Valid(b)
    ensures TextLess(Text(a), Text(b)) <==> Earlier(a, b)
  {
    FieldsFit(a);
    FieldsFit(b);
    RenderOrder(Fields(a), Fields(b));
    EarlierByFields(a, b);
  }

  lemma {:induction false} PadReads(n: nat, width: nat)
    requires n < Power(width)
    ensures forall c | c in Pad(n, width) :: '0' <= c <= '9'
    ensures ReadDecimal(Pad(n, width)) == n
    decreases width
  {
    if width > 0 {
      PadReads(n / 10, width - 1);
      var s := Pad(n, width);
      assert s[..width - 1] == Pad(n / 10, width - 1);
    }
  }

  function Part(n: nat, width: nat, mark: char): string
    requires n < Power(width)
  {
    Pad(n, width) + [mark]
  }

  lemma RenderFrom(f: seq<(nat, nat, char)>, k: nat)
    requires Fit(f) && k < |f|
    ensures Fit(f[k..]) && Fit(f[k + 1..]) && f[k].0 < Power(f[k].1)
    ensures Render(f[k..]) == Part(f[k].0, f[k].1, f[k].2) + Render(f[k + 1..])
  {
    assert f[k] in f && f[k..][1..] == f[k + 1..];
  }

  lemma TimeShape(t: Instant)
    requires Valid(t)
    ensures t.hour < Power(2) && t.minute < Power(2) && t.second < Power(2) && t.milli < Power(3)
    ensures Fit(Fields(t)) && Fit(Fields(t)[3..])
    ensures Render(Fields(t)[3..]) ==
            Part(t.hour, 2, ':') + (Part(t.minute, 2, ':') + (Part(t.second, 2, '.') + Part(t.milli, 3, 'Z')))
  {
    FieldsFit(t);
    var f := Fields(t);
    RenderFrom(f, 6);
    RenderFrom(f, 5);
    RenderFrom(f, 4);
    RenderFrom(f, 3);
    assert f[7..] == [] && Render([]) == "";
    assert Render(f[6..]) == Part(t.milli, 3, 'Z');
  }

  /** The text is YYYY-MM-DDTHH:MM:SS.mmmZ; by PadReads each field reads its own value in as
      many digits as it has places. */
  lemma TextShape(t: Instant)
    requires Valid(t)
    ensures t.year < Power(4) && t.month < Power(2) && t.day < Power(2)
            && t.hour < Power(2) && t.minute < Power(2) && t.second < Power(2) && t.milli < Power(3)
    ensures Text(t) == Part(t.year, 4, '-') + (Part(t.month, 2, '-') + (Part(t.day, 2, 'T')
                       + (Part(t.hour, 2, ':') + (Part(t.minute, 2, ':') + (Part(t.second, 2, '.') + Part(t.milli, 3, 'Z'))))))
  {
    TimeShape(t);
    var f := Fields(t);
    RenderFrom(f, 2);
    RenderFrom(f, 1);
    RenderFrom(f, 0);
    assert f[0..] == f;
  }

  // ---- the server's text ------------------------------------------------------------

  /** A naive time as the server keeps it, to the microsecond. */
  datatype Stamp = Stamp(year: nat, month: nat, day: nat, hour: nat, minute: nat, second: nat, micro: nat)

  predicate ValidStamp(t: Stamp) {
    t.year < 10000 && t.month < 100 && t.day < 100 && t.hour < 100 && t.minute < 100 && t.second < 100 && t.micro < 1000000
  }

  /** Up to the minute; the second follows without a mark. */
  function Minutes(t: Stamp): seq<(nat, nat, char)> {
    [(t.year, 4, '-'), (t.month, 2, '-'), (t.day, 2, 'T'), (t.hour, 2, ':'), (t.minute, 2, ':')]
  }

  lemma StampFits(t: Stamp)
    requires ValidStamp(t)
    ensures Fit(Minutes(t)) && t.second < Power(2) && t.micro < Power(6)
  {
    assert Power(1) == 10 && Power(2) == 100 && Power(3) == 1000 && Power(4) == 10000;
    assert Power(6) == 10 * Power(5) == 100 * Power(4);
  }

  /** The ISO text of a time without an offset leaves the fraction out when it is zero. */
  function Fraction(micro: nat): string
    requires micro < Power(6)
  {
    if micro == 0 then "" else "." + Pad(micro, 6)
  }

  function StampText(t: Stamp): string
    requires ValidStamp(t)
  {
    StampFits(t);
    Render(Minutes(t)) + (Pad(t.second, 2) + Fraction(t.micro))
  }

  predicate EarlierStamp(a: Stamp, b: Stamp) {
    || a.year < b.year
    || (a.year == b.year && (a.month < b.month
    || (a.month == b.month && (a.day < b.day
    || (a.day == b.day && (a.hour < b.hour
    || (a.hour == b.hour && (a.minute < b.minute
    || (a.minute == b.minute && (a.second < b.second
    || (a.second == b.second && a.micro < b.micro)))))))))))
  }

  lemma EarlierByMinutes(a: Stamp, b: Stamp)
    ensures EarlierStamp(a, b) <==>
            || FieldsLess(Minutes(a), Minutes(b))
            || (Minutes(a) == Minutes(b) && (a.second < b.second || (a.second == b.second && a.micro < b.micro)))
  {
    var x, y := Minutes(a), Minutes(b);
    FieldsLessAt(x, y, 0);
    FieldsLessAt(x, y, 1);
    FieldsLessAt(x, y, 2);
    FieldsLessAt(x, y, 3);
    FieldsLessAt(x, y, 4);
    assert x[5..] == [] && x[0..] == x && y[0..] == y;
    assert x == y <==> x[0] == y[0] && x[1] == y[1] && x[2] == y[2] && x[3] == y[3] && x[4] == y[4];
  }

  lemma FractionOrder(m: nat, n: nat)
    requires m < Power(6) && n < Power(6)
    ensures TextLess(Fraction(m), Fraction(n)) <==> m < n
  {
    if m > 0 && n > 0 {
      TextLessPrefix(".", ".", Pad(m, 6), Pad(n, 6));
      PadOrder(m, n, 6);
    }
  }

  lemma {:induction false} RenderIsInjective(a: seq<(nat, nat, char)>, b: seq<(nat, nat, char)>)
    requires SameShape(a, b) && Fit(a) && Fit(b)
    ensures |Render(a)| == |Render(b)|
    ensures Render(a) == Render(b) ==> a == b
    decreases |a|
  {
    if a != [] {
      assert a[0] in a && b[0] in b && a[0].1 == b[0].1 && a[0].2 == b[0].2;
      assert forall i | 0 <= i < |a| - 1 :: a[1..][i].1 == b[1..][i].1 && a[1..][i].2 == b[1..][i].2;
      RenderIsInjective(a[1..], b[1..]);
      PadOrder(a[0].0, b[0].0, a[0].1);
      if Render(a) == Render(b) {
        HeadAndTail(a);
        HeadAndTail(b);
        assert a == [a[0]] + a[1..] && b == [b[0]] + b[1..];
      }
    }
  }

  lemma HeadAndTail(a: seq<(nat, nat, char)>)
    requires Fit(a) && a != []
    ensures var width := a[0].1;
            && a[0].0 < Power(width) && Fit(a[1..]) && |Render(a)| > width
            && Render(a)[..width] == Pad(a[0].0, width) && Render(a)[width + 1..] == Render(a[1..])
  {
    assert a[0] in a;
  }

  /** So the text order of the server's stamps is time order as well, although their
      length varies. */
  lemma StampOrderIsTimeOrder(a: Stamp, b: Stamp)
    requires ValidStamp(a) && ValidStamp(b)
    ensures TextLess(StampText(a), StampText(b)) <==> EarlierStamp(a, b)
  {
    StampFits(a);
    StampFits(b);
    RenderOrder(Minutes(a), Minutes(b));
    RenderIsInjective(Minutes(a), Minutes(b));
    TextLessPrefix(Render(Minutes(a)), Render(Minutes(b)),
                   Pad(a.second, 2) + Fraction(a.micro), Pad(b.second, 2) + Fraction(b.micro));
    PadOrder(a.second, b.second, 2);
    TextLessPrefix(Pad(a.second, 2), Pad(b.second, 2), Fraction(a.micro), Fraction(b.micro));
    FractionOrder(a.micro, b.micro);
    EarlierByMinutes(a, b);
  }

  /** Operations stamped by a clock that does not run backwards are sent in the order
      in which they were queued. */
  lemma QueueIsFifo(ops: seq<PendingOp>, clock: seq<Instant>)
    requires |clock| == |ops|
    requires forall i | 0 <= i < |ops| :: Valid(clock[i]) && ops[i].createdAt == Text(clock[i])
    requires forall i, j | 0 <= i < j < |clock| :: !Earlier(clock[j], clock[i])
    ensures forall a, b | 0 <= a < b < |SendOrder(ops)| :: SendOrder(ops)[a] < SendOrder(ops)[b]
  {
    forall i, j | 0 <= i < j < |ops|
      ensures !TextLess(ops[j].createdAt, ops[i].createdAt)
    {
      TextOrderIsTimeOrder(clock[j], clock[i]);
    }
    SendOrderIsFifo(ops);
  }
}

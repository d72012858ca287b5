/** Backup directory names: the time as yyyyMMdd-HHmmss, whose order as text is the order in
    time. */
module Stamps {
  import opened Lexical

  datatype Moment = Moment(year: nat, month: nat, day: nat, hour: nat, minute: nat, second: nat)

  predicate Representable(m: Moment) {
    m.year < 10000 && m.month < 100 && m.day < 100 && m.hour < 100 && m.minute < 100 && m.second < 100
  }

  predicate Earlier(a: Moment, b: Moment) {
    || a.year < b.year
    || (a.year == b.year && (a.month < b.month
    || (a.month == b.month && (a.day < b.day
    || (a.day == b.day && (a.hour < b.hour
    || (a.hour == b.hour && (a.minute < b.minute
    || (a.minute == b.minute && a.second < b.second)))))))))
  }

  function Digit(d: nat): char
    requires d < 10
  {
    '0' + d as char
  }

  function Two(n: nat): string
    requires n < 100
  {
    [Digit(n / 10), Digit(n % 10)]
  }

  function Four(n: nat): string
    requires n < 10000
  {
    Two(n / 100) + Two(n % 100)
  }

  function Clock(m: Moment): string
    requires Representable(m)
  {
    Two(m.hour) + (Two(m.minute) + Two(m.second))
  }

  /** Get-Date -Format 'yyyyMMdd-HHmmss'. */
  function Stamp(m: Moment): string
    requires Representable(m)
  {
    Four(m.year) + (Two(m.month) + (Two(m.day) + ("-" + Clock(m))))
  }

  /** Four digits of the year, two each of month and day, a hyphen, two each of hour, minute and
      second. */
  lemma StampIs(m: Moment)
    requires Representable(m)
    ensures var s := Stamp(m);
            && |s| == 15 && s[8] == '-'
            && s[0] as int == 48 + m.year / 100 / 10 && s[1] as int == 48 + m.year / 100 % 10
            && s[2] as int == 48 + m.year % 100 / 10 && s[3] as int == 48 + m.year % 100 % 10
            && s[4] as int == 48 + m.month / 10 && s[5] as int == 48 + m.month % 10
            && s[6] as int == 48 + m.day / 10 && s[7] as int == 48 + m.day % 10
            && s[9] as int == 48 + m.hour / 10 && s[10] as int == 48 + m.hour % 10
            && s[11] as int == 48 + m.minute / 10 && s[12] as int == 48 + m.minute % 10
            && s[13] as int == 48 + m.second / 10 && s[14] as int == 48 + m.second % 10
  {
    YearDigits(m.year);
    DigitIs(m.month);
    DigitIs(m.day);
    DigitIs(m.hour);
    DigitIs(m.minute);
    DigitIs(m.second);
    var clock := Clock(m);
    assert clock == Two(m.hour) + (Two(m.minute) + Two(m.second));
    assert Stamp(m) == Four(m.year) + (Two(m.month) + (Two(m.day) + ("-" + clock)));
  }

  lemma DigitIs(n: nat)
    requires n < 100
    ensures |Two(n)| == 2 && Two(n)[0] as int == 48 + n / 10 && Two(n)[1] as int == 48 + n % 10
  {
  }

  lemma YearDigits(n: nat)
    requires n < 10000
    ensures |Four(n)| == 4
    ensures Four(n)[0] as int == 48 + n / 100 / 10 && Four(n)[1] as int == 48 + n / 100 % 10
    ensures Four(n)[2] as int == 48 + n % 100 / 10 && Four(n)[3] as int == 48 + n % 100 % 10
  {
    DigitIs(n / 100);
    DigitIs(n % 100);
  }

  lemma {:induction false} LessConcat(x: string, y: string, u: string, v: string)
    requires |x| == |y|
    ensures Less(x + u, y + v) <==> Less(x, y) || (x == y && Less(u, v))
  {
    if x == "" {
      assert x + u == u && y + v == v;
    } else {
      assert (x + u)[1..] == x[1..] + u && (y + v)[1..] == y[1..] + v;
      LessConcat(x[1..], y[1..], u, v);
      assert x == [x[0]] + x[1..] && y == [y[0]] + y[1..];
    }
  }

  lemma LessDigits(a: nat, b: nat)
    requires a < 10 && b < 10
    ensures Less([Digit(a)], [Digit(b)]) <==> a < b
    ensures [Digit(a)] == [Digit(b)] <==> a == b
  {
    assert [Digit(a)][1..] == "" && [Digit(b)][1..] == "";
    assert [Digit(a)][0] == Digit(a) && [Digit(b)][0] == Digit(b);
    assert !Less("", "");
  }

  lemma LessTwo(a: nat, b: nat)
    requires a < 100 && b < 100
    ensures Less(Two(a), Two(b)) <==> a < b
    ensures Two(a) == Two(b) <==> a == b
  {
    LessDigits(a / 10, b / 10);
    LessDigits(a % 10, b % 10);
    LessConcat([Digit(a / 10)], [Digit(b / 10)], [Digit(a % 10)], [Digit(b % 10)]);
    assert Two(a) == [Digit(a / 10)] + [Digit(a % 10)] && Two(b) == [Digit(b / 10)] + [Digit(b % 10)];
    assert Two(a)[0] == Digit(a / 10) && Two(a)[1] == Digit(a % 10);
    assert Two(b)[0] == Digit(b / 10) && Two(b)[1] == Digit(b % 10);
  }

  lemma LessFour(a: nat, b: nat)
    requires a < 10000 && b < 10000
    ensures Less(Four(a), Four(b)) <==> a < b
    ensures Four(a) == Four(b) <==> a == b
  {
    LessTwo(a / 100, b / 100);
    LessTwo(a % 100, b % 100);
    LessConcat(Two(a / 100), Two(b / 100), Two(a % 100), Two(b % 100));
    assert Four(a)[..2] == Two(a / 100) && Four(b)[..2] == Two(b / 100);
    assert Four(a)[2..] == Two(a % 100) && Four(b)[2..] == Two(b % 100);
  }

  lemma LessClock(a: Moment, b: Moment)
    requires Representable(a) && Representable(b)
    ensures Less(Clock(a), Clock(b)) <==>
      (a.hour < b.hour || (a.hour == b.hour && (a.minute < b.minute || (a.minute == b.minute && a.second < b.second))))
  {
    LessTwo(a.hour, b.hour);
    LessTwo(a.minute, b.minute);
    LessTwo(a.second, b.second);
    LessConcat(Two(a.hour), Two(b.hour), Two(a.minute) + Two(a.second), Two(b.minute) + Two(b.second));
    LessConcat(Two(a.minute), Two(b.minute), Two(a.second), Two(b.second));
  }

  lemma LessDash(u: string, v: string)
    ensures Less("-" + u, "-" + v) <==> Less(u, v)
  {
    LessConcat("-", "-", u, v);
    assert "-"[1..] == "" && !Less("", "");
  }

  /** Backup names sort as the times they were taken. */
  lemma StampOrder(a: Moment, b: Moment)
    requires Representable(a) && Representable(b)
    ensures Less(Stamp(a), Stamp(b)) <==> Earlier(a, b)
    ensures Less(Stamp(a), Stamp(b)) <==>
            || a.year < b.year
            || (a.year == b.year && a.month < b.month)
            || (a.year == b.year && a.month == b.month && a.day < b.day)
            || (a.year == b.year && a.month == b.month && a.day == b.day && a.hour < b.hour)
            || (a.year == b.year && a.month == b.month && a.day == b.day && a.hour == b.hour && a.minute < b.minute)
            || (a.year == b.year && a.month == b.month && a.day == b.day && a.hour == b.hour
                && a.minute == b.minute && a.second < b.second)
  {
    LessFour(a.year, b.year);
    LessTwo(a.month, b.month);
    LessTwo(a.day, b.day);
    LessClock(a, b);
    LessDash(Clock(a), Clock(b));
    LessConcat(Two(a.day), Two(b.day), "-" + Clock(a), "-" + Clock(b));
    LessConcat(Two(a.month), Two(b.month), Two(a.day) + ("-" + Clock(a)), Two(b.day) + ("-" + Clock(b)));
    LessConcat(Four(a.year), Four(b.year), Two(a.month) + (Two(a.day) + ("-" + Clock(a))),
               Two(b.month) + (Two(b.day) + ("-" + Clock(b))));
  }
}

/** The formatted keys of the limiter never collide. */
module LimiterKeys {
  import opened Limiter

  function Value(s: string): int {
    if s == "" then 0 else 10 * Value(s[..|s| - 1]) + (s[|s| - 1] as int - '0' as int)
  }

  predicate IsDigits(s: string) {
    forall i :: 0 <= i < |s| ==> '0' <= s[i] <= '9'
  }

  lemma {:induction false} DigitsValue(n: nat)
    ensures Value(Digits(n)) == n && IsDigits(Digits(n)) && Digits(n) != ""
  {
    if n < 10 {
      assert Digits(n)[..0] == "";
    } else {
      DigitsValue(n / 10);
      assert Digits(n)[..|Digits(n)| - 1] == Digits(n / 10);
    }
  }

  lemma DigitsInjective(m: nat, n: nat)
    ensures Digits(m) == Digits(n) ==> m == n
  {
    DigitsValue(m);
    DigitsValue(n);
  }

  lemma MinusDropped(a: string, b: string)
    ensures "-" + a == "-" + b ==> a == b
  {
    assert ("-" + a)[1..] == a && ("-" + b)[1..] == b;
  }

  lemma MinusTold(a: string, n: nat)
    ensures "-" + a != Digits(n)
  {
    DigitsValue(n);
    assert ("-" + a)[0] == '-';
  }

  lemma NoColon(n: int)
    ensures ':' !in Decimal(n)
  {
    DigitsValue(if n < 0 then -n else n);
  }

  lemma DecimalInjective(m: int, n: int)
    ensures Decimal(m) == Decimal(n) ==> m == n
  {
    if m < 0 && n < 0 {
      MinusDropped(Digits(-m), Digits(-n));
      DigitsInjective(-m, -n);
    } else if m < 0 {
      MinusTold(Digits(-m), n);
    } else if n < 0 {
      MinusTold(Digits(-n), m);
    } else {
      DigitsInjective(m, n);
    }
  }

  lemma FirstColon(a: string, x: string, b: string, y: string)
    requires ':' !in a && ':' !in b
    requires a + ":" + x == b + ":" + y
    ensures a == b && x == y
  {
    var s := a + ":" + x;
    assert s[|a|] == ':' && s[|b|] == ':';
    assert s[..|a|] == a && s[..|b|] == b && s[|a| + 1..] == x && s[|b| + 1..] == y;
  }

  lemma WindowNameInjective(v: Window, w: Window)
    requires WindowName(v) == WindowName(w)
    ensures v == w
  {
    assert WindowName(v)[0] == WindowName(w)[0];
    assert WindowName(v)[1] == WindowName(w)[1];
    if v.DomainHour? {
      assert WindowName(v) == "domain:" + v.domain + ":hour";
      assert WindowName(v)[7..|WindowName(v)| - 5] == v.domain;
      assert WindowName(w)[7..|WindowName(w)| - 5] == w.domain;
    }
  }

  /** A key is split back into its number and its name. */
  lemma KeyParts(a: string, x: string, b: string, y: string)
    requires ':' !in a && ':' !in b
    requires "u:" + a + ":" + x == "u:" + b + ":" + y
    ensures a == b && x == y
  {
    assert ("u:" + a + ":" + x)[2..] == a + ":" + x;
    assert ("u:" + b + ":" + y)[2..] == b + ":" + y;
    FirstColon(a, x, b, y);
  }

  /** Bucket keys are injective in user, rule and domain, colons in the domain or not. */
  lemma BucketKeyInjective(u: int, v: Window, u': int, w: Window)
    ensures BucketKey(u, v) == BucketKey(u', w) <==> u == u' && v == w
  {
    if BucketKey(u, v) == BucketKey(u', w) {
      NoColon(u);
      NoColon(u');
      DecimalInjective(u, u');
      KeyParts(Decimal(u), WindowName(v), Decimal(u'), WindowName(w));
      WindowNameInjective(v, w);
    }
  }

  lemma ClockKeyInjective(u: int, u': int)
    ensures ClockKey(u) == ClockKey(u') <==> u == u'
  {
    if ClockKey(u) == ClockKey(u') {
      assert ClockKey(u)[2..] == Decimal(u) && ClockKey(u')[2..] == Decimal(u');
      DecimalInjective(u, u');
    }
  }

  lemma DomainClockKeyInjective(u: int, d: string, u': int, d': string)
    ensures DomainClockKey(u, d) == DomainClockKey(u', d') <==> u == u' && d == d'
  {
    if DomainClockKey(u, d) == DomainClockKey(u', d') {
      NoColon(u);
      NoColon(u');
      DecimalInjective(u, u');
      assert DomainClockKey(u, d) == "u:" + Decimal(u) + ":" + ("d:" + d);
      assert DomainClockKey(u', d') == "u:" + Decimal(u') + ":" + ("d:" + d');
      KeyParts(Decimal(u), "d:" + d, Decimal(u'), "d:" + d');
      assert ("d:" + d)[2..] == d && ("d:" + d')[2..] == d';
    }
  }
}

// The live clock of the availability badge (components/AvailabilityStatus.tsx):
// hours, minutes and seconds, each written with at least two digits and
// joined by colons. The Date and the one-second interval are not modelled;
// the three clock fields are parameters.

module AvailabilityStatus {
  import opened Text

  /** A clock field: String(n).padStart(2, "0"). */
  function Field(n: nat): (f: string)
    ensures AllDigits(f) && |f| >= 2
    ensures n < 100 ==> |f| == 2
    ensures ':' !in f
  {
    ParsePadded(n);
    PadStart(NatToString(n), 2, '0')
  }

  /** formatTime: "HH:MM:SS". */
  function FormatClock(h: nat, m: nat, s: nat): (r: string)
    ensures |r| >= 8
    ensures h < 100 && m < 100 && s < 100 ==> |r| == 8 && r[2] == ':' && r[5] == ':'
  {
    var r := Field(h) + ":" + Field(m) + ":" + Field(s);
    if h < 100 && m < 100 && s < 100 then Colons(Field(h), Field(m), Field(s)); r else r
  }

  /** Three two-digit fields joined by colons: eight characters, colons at 2 and 5. */
  lemma Colons(a: string, b: string, c: string)
    requires |a| == 2 && |b| == 2 && |c| == 2 && AllDigits(a) && AllDigits(b) && AllDigits(c)
    ensures var r := a + ":" + b + ":" + c;
      |r| == 8 && r[2] == ':' && r[5] == ':' &&
      forall i :: 0 <= i < 8 && i != 2 && i != 5 ==> IsDigit(r[i])
  {
    var r := a + ":" + b + ":" + c;
    assert r == [a[0], a[1], ':', b[0], b[1], ':', c[0], c[1]];
  }

  /** For a time of day, the string is exactly eight characters with colons at 2 and 5. */
  lemma ClockShape(h: nat, m: nat, s: nat)
    requires h <= 23 && m <= 59 && s <= 59
    ensures |FormatClock(h, m, s)| == 8
    ensures FormatClock(h, m, s)[2] == ':' && FormatClock(h, m, s)[5] == ':'
    ensures forall i :: 0 <= i < 8 && i != 2 && i != 5 ==> IsDigit(FormatClock(h, m, s)[i])
  {
    Colons(Field(h), Field(m), Field(s));
  }

  /** A field reads back as its number. */
  lemma FieldParses(n: nat)
    ensures ParseDecimal(Field(n)) == n
  {
    ParsePadded(n);
  }

  /** Three colon-free digit fields joined by colons split back into those fields. */
  lemma ReadFields(a: string, b: string, c: string)
    requires AllDigits(a) && AllDigits(b) && AllDigits(c)
    ensures var p := Split(a + ":" + b + ":" + c, ':');
      |p| == 3 && AllDigits(p[0]) && AllDigits(p[1]) && AllDigits(p[2]) &&
      ParseDecimal(p[0]) == ParseDecimal(a) && ParseDecimal(p[1]) == ParseDecimal(b) &&
      ParseDecimal(p[2]) == ParseDecimal(c)
  {
    assert ':' !in a && ':' !in b && ':' !in c;
    assert a + ":" + b + ":" + c == a + [':'] + (b + [':'] + c);
    SplitThree(a, b, c, ':');
  }

  /** Reading the string back: splitting on ':' gives three fields that parse to h, m and s. */
  lemma ClockRoundTrip(h: nat, m: nat, s: nat)
    ensures var p := Split(FormatClock(h, m, s), ':');
      |p| == 3 && AllDigits(p[0]) && AllDigits(p[1]) && AllDigits(p[2]) &&
      ParseDecimal(p[0]) == h && ParseDecimal(p[1]) == m && ParseDecimal(p[2]) == s
  {
    FieldParses(h);
    FieldParses(m);
    FieldParses(s);
    ReadFields(Field(h), Field(m), Field(s));
  }
}

/** Fixed-width numbers in base ten or sixteen, as in timestamps and UUIDs. */
module Digits {
  import opened Common

  function Pow(b: nat, n: nat): nat {
    if n == 0 then 1 else b * Pow(b, n - 1)
  }

  function DigitChar(d: nat): char
    requires d < 16
  {
    if d < 10 then '0' + d as char else 'a' + (d - 10) as char
  }

  function DigitValue(c: char): Option<nat> {
    if '0' <= c <= '9' then Some((c - '0') as nat)
    else if 'a' <= c <= 'f' then Some((c - 'a') as nat + 10)
    else if 'A' <= c <= 'F' then Some((c - 'A') as nat + 10)
    else None
  }

  function Quotient(n: nat, b: nat): nat
    requires b >= 1
  {
    n / b
  }

  /** The w lowest digits of n. */
  function Format(b: nat, n: nat, w: nat): (s: string)
    requires 2 <= b <= 16
    ensures |s| == w
  {
    if w == 0 then "" else Format(b, Quotient(n, b), w - 1) + [DigitChar(n % b)]
  }

  /** Reads a number; None if there is a character that is no digit of the base. */
  function Read(b: nat, s: string): Option<nat> {
    if s == "" then Some(0)
    else
      var high := Read(b, s[..|s| - 1]);
      var low := DigitValue(s[|s| - 1]);
      if high.Some? && low.Some? && low.value < b then Some(high.value * b + low.value) else None
  }

  lemma DigitRoundTrip(d: nat)
    requires d < 16
    ensures DigitValue(DigitChar(d)) == Some(d)
  {
  }

  lemma {:induction false} FormatRead(b: nat, n: nat, w: nat)
    requires 2 <= b <= 16
    requires n < Pow(b, w)
    ensures Read(b, Format(b, n, w)) == Some(n)
    decreases w
  {
    hide *;
    if w == 0 {
      ZeroRead(b, n);
    } else {
      HighFits(b, n, w);
      FormatRead(b, Quotient(n, b), w - 1);
      FormatReadStep(b, n, w);
    }
  }

  lemma ZeroRead(b: nat, n: nat)
    requires 2 <= b <= 16 && n < Pow(b, 0)
    ensures Read(b, Format(b, n, 0)) == Some(n)
  {
  }

  lemma HighFits(b: nat, n: nat, w: nat)
    requires b >= 1 && w > 0 && n < Pow(b, w)
    ensures Quotient(n, b) < Pow(b, w - 1)
  {
    var p := Pow(b, w - 1);
    assert n < b * p;
    hide Pow;
    DivLess(b, n, p);
  }

  lemma FormatReadStep(b: nat, n: nat, w: nat)
    requires 2 <= b <= 16 && w > 0
    requires Read(b, Format(b, Quotient(n, b), w - 1)) == Some(Quotient(n, b))
    ensures Read(b, Format(b, n, w)) == Some(n)
  {
    var high := Format(b, Quotient(n, b), w - 1);
    assert Format(b, n, w) == high + [DigitChar(n % b)];
    ReadAppend(b, high, Quotient(n, b), n % b);
    hide Read, Format;
    DivMod(b, n);
  }

  lemma ReadAppend(b: nat, s: string, high: nat, d: nat)
    requires 2 <= b <= 16 && d < b
    requires Read(b, s) == Some(high)
    ensures Read(b, s + [DigitChar(d)]) == Some(high * b + d)
  {
    DigitRoundTrip(d);
    assert (s + [DigitChar(d)])[..|s|] == s;
  }

  lemma DivMod(b: nat, n: nat)
    requires b >= 1
    ensures n == (n / b) * b + n % b
  {
  }

  lemma DivLess(b: nat, n: nat, p: nat)
    requires b >= 1 && n < b * p
    ensures n / b < p
  {
    DivMod(b, n);
    if n / b >= p {
      MulMono(b, p, n / b);
    }
  }

  lemma MulMono(b: nat, x: nat, y: nat)
    requires x <= y
    ensures b * x <= b * y
  {
  }

  /** Every character written is a digit. */
  lemma {:induction false} FormatChars(b: nat, n: nat, w: nat)
    requires 2 <= b <= 16
    ensures forall i | 0 <= i < w :: DigitValue(Format(b, n, w)[i]).Some?
  {
    if w > 0 {
      FormatChars(b, Quotient(n, b), w - 1);
      DigitRoundTrip(n % b);
    }
  }

  /** A decimal field of a timestamp: its width and what must follow it. */
  datatype Field = Field(width: nat, sep: string)

  function FormatFields(values: seq<nat>, fields: seq<Field>, rest: string): string
    requires |values| == |fields|
  {
    if values == [] then rest
    else Format(10, values[0], fields[0].width) + (fields[0].sep + FormatFields(values[1..], fields[1..], rest))
  }

  /** Reads the fields off the front and returns them with what is left. */
  function ReadFields(s: string, fields: seq<Field>): Option<(seq<nat>, string)>
    decreases |fields|
  {
    if fields == [] then Some(([], s))
    else
      var w, sep := fields[0].width, fields[0].sep;
      if |s| < w || !(sep <= s[w..]) then None
      else
        var value := Read(10, s[..w]);
        if value.None? then None
        else
          var tail := ReadFields(s[w..][|sep|..], fields[1..]);
          if tail.None? then None else Some(([value.value] + tail.value.0, tail.value.1))
  }

  ghost predicate Fit(values: seq<nat>, fields: seq<Field>) {
    |values| == |fields| && forall i | 0 <= i < |values| :: values[i] < Pow(10, fields[i].width)
  }

  lemma {:induction false} FieldsRoundTrip(values: seq<nat>, fields: seq<Field>, rest: string)
    requires Fit(values, fields)
    ensures ReadFields(FormatFields(values, fields, rest), fields) == Some((values, rest))
    decreases |values|
  {
    if values != [] {
      var w, sep := fields[0].width, fields[0].sep;
      var tail := FormatFields(values[1..], fields[1..], rest);
      var s := FormatFields(values, fields, rest);
      assert s == Format(10, values[0], w) + (sep + tail);
      assert s[..w] == Format(10, values[0], w);
      assert s[w..] == sep + tail;
      assert (sep + tail)[|sep|..] == tail;
      FormatRead(10, values[0], w);
      FieldsRoundTrip(values[1..], fields[1..], rest);
      assert values == [values[0]] + values[1..];
    }
  }
}

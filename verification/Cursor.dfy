/** The opaque page cursor: base64 over a JSON object with the timestamp and the id of a row. */
module Cursor {
  import opened Common
  import opened Digits
  import Base64
  import opened Keyset
  import opened Users
  import opened UserQueries

  /** A UTC datetime by its fields. */
  datatype Timestamp = Timestamp(year: nat, month: nat, day: nat, hour: nat, minute: nat, second: nat, micro: nat)

  /** The Gregorian calendar. */
  function DaysIn(year: nat, month: nat): nat {
    if month == 2 then (if year % 4 == 0 && (year % 100 != 0 || year % 400 == 0) then 29 else 28)
    else if month in {4, 6, 9, 11} then 30
    else 31
  }

  /** The datetimes there are. */
  predicate InRange(t: Timestamp) {
    && 1 <= t.year <= 9999 && 1 <= t.month <= 12 && 1 <= t.day <= DaysIn(t.year, t.month)
    && t.hour < 24 && t.minute < 60 && t.second < 60 && t.micro < 1_000_000
  }

  /** The number that stands for a timestamp in the model's rows; it orders them as time does. */
  function Code(t: Timestamp): int {
    (((((t.year * 13 + t.month) * 32 + t.day) * 24 + t.hour) * 60 + t.minute) * 60 + t.second) * 1_000_000 + t.micro
  }

  function TimestampOf(code: nat): Timestamp {
    var s := code / 1_000_000;
    var mi := s / 60;
    var h := mi / 60;
    var d := h / 24;
    var mo := d / 32;
    Timestamp(mo / 13, mo % 13, d % 32, h % 24, mi % 60, s % 60, code % 1_000_000)
  }

  lemma CodeRoundTrip(t: Timestamp)
    requires InRange(t)
    ensures Code(t) >= 0 && TimestampOf(Code(t)) == t
  {
    var mo := t.year * 13 + t.month;
    var d := mo * 32 + t.day;
    var h := d * 24 + t.hour;
    var mi := h * 60 + t.minute;
    var s := mi * 60 + t.second;
    assert (s * 1_000_000 + t.micro) / 1_000_000 == s;
    assert (mi * 60 + t.second) / 60 == mi;
    assert (h * 60 + t.minute) / 60 == h;
    assert (d * 24 + t.hour) / 24 == d;
    assert (mo * 32 + t.day) / 32 == mo;
    assert (t.year * 13 + t.month) / 13 == t.year;
  }

  /** A timestamp is earlier in some field, all more significant fields being equal, iff its code is smaller. */
  lemma CodeIsChronological(a: Timestamp, b: Timestamp)
    requires InRange(a) && InRange(b)
    ensures Code(a) < Code(b) <==>
            || a.year < b.year
            || (a.year == b.year && (a.month < b.month
            || (a.month == b.month && (a.day < b.day
            || (a.day == b.day && (a.hour < b.hour
            || (a.hour == b.hour && (a.minute < b.minute
            || (a.minute == b.minute && (a.second < b.second
            || (a.second == b.second && a.micro < b.micro)))))))))))
  {
    assert a.day <= 31 && b.day <= 31;
    hide DaysIn, InRange;
  }

  // ---------- isoformat ----------

  const DATE_TIME: seq<Field> :=
    [Field(4, "-"), Field(2, "-"), Field(2, "T"), Field(2, ":"), Field(2, ":"), Field(2, "")]
  const MICROS: seq<Field> := [Field(6, "+00:00")]

  /** isoformat of a UTC datetime: the fraction is left out when it is zero. */
  function Iso(t: Timestamp): string {
    FormatFields([t.year, t.month, t.day, t.hour, t.minute, t.second], DATE_TIME,
                 if t.micro == 0 then "+00:00" else "." + FormatFields([t.micro], MICROS, ""))
  }

  /** fromisoformat on what isoformat writes for UTC. */
  function ReadIso(s: string): Option<Timestamp> {
    var main := ReadFields(s, DATE_TIME);
    if main.None? || |main.value.0| != 6 then None
    else
      var f, rest := main.value.0, main.value.1;
      var micro :=
        if rest == "+00:00" then Some(0)
        else if rest == "" || rest[0] != '.' then None
        else
          var m := ReadFields(rest[1..], MICROS);
          if m.Some? && |m.value.0| == 1 && m.value.1 == "" then Some(m.value.0[0]) else None;
      if micro.None? then None
      else
        var t := Timestamp(f[0], f[1], f[2], f[3], f[4], f[5], micro.value);
        if InRange(t) then Some(t) else None
  }

  lemma Powers()
    ensures Pow(10, 2) == 100 && Pow(10, 4) == 10_000 && Pow(10, 6) == 1_000_000
  {
    assert Pow(10, 1) == 10;
    assert Pow(10, 3) == 1000;
    assert Pow(10, 5) == 100_000;
  }

  lemma IsoFits(t: Timestamp)
    requires InRange(t)
    ensures Fit([t.year, t.month, t.day, t.hour, t.minute, t.second], DATE_TIME) && Fit([t.micro], MICROS)
  {
    Powers();
    hide Pow;
  }

  /** The fields once read are put together, with the fraction or without. */
  lemma ReadIsoParts(s: string, t: Timestamp, fraction: string)
    requires InRange(t)
    requires ReadFields(fraction, MICROS) == Some(([t.micro], ""))
    requires ReadFields(s, DATE_TIME) == Some(([t.year, t.month, t.day, t.hour, t.minute, t.second],
                                               if t.micro == 0 then "+00:00" else "." + fraction))
    ensures ReadIso(s) == Some(t)
  {
    assert ("." + fraction)[1..] == fraction;
    hide ReadFields;
  }

  lemma IsoRoundTrip(t: Timestamp)
    requires InRange(t)
    ensures ReadIso(Iso(t)) == Some(t)
  {
    var values := [t.year, t.month, t.day, t.hour, t.minute, t.second];
    var fraction := FormatFields([t.micro], MICROS, "");
    var rest := if t.micro == 0 then "+00:00" else "." + fraction;
    assert Iso(t) == FormatFields(values, DATE_TIME, rest);
    hide *;
    IsoFits(t);
    FieldsRoundTrip(values, DATE_TIME, rest);
    FieldsRoundTrip([t.micro], MICROS, "");
    ReadIsoParts(Iso(t), t, fraction);
  }

  /** Which 29ths of February there are. */
  lemma LeapDays()
    ensures InRange(Timestamp(2024, 2, 29, 0, 0, 0, 0)) && !InRange(Timestamp(2023, 2, 29, 0, 0, 0, 0))
    ensures InRange(Timestamp(2000, 2, 29, 0, 0, 0, 0)) && !InRange(Timestamp(1900, 2, 29, 0, 0, 0, 0))
    ensures !InRange(Timestamp(2024, 2, 30, 0, 0, 0, 0)) && !InRange(Timestamp(2024, 4, 31, 0, 0, 0, 0))
    ensures InRange(Timestamp(2024, 12, 31, 23, 59, 59, 999_999)) && !InRange(Timestamp(2024, 12, 31, 24, 0, 0, 0))
  {
  }

  // ---------- UUIDs ----------

  /** str(uuid): 32 lower-case hexadecimal digits in groups of 8-4-4-4-12. */
  function UuidText(id: nat): string {
    var h := Format(16, id, 32);
    h[..8] + ("-" + (h[8..12] + ("-" + (h[12..16] + ("-" + (h[16..20] + ("-" + h[20..])))))))
  }

  function DropDashes(s: string): string {
    if s == "" then "" else if s[0] == '-' then DropDashes(s[1..]) else [s[0]] + DropDashes(s[1..])
  }

  /** uuid.UUID on a hexadecimal string: dashes are ignored, 32 digits must remain. */
  function ReadUuid(s: string): Option<nat> {
    var h := DropDashes(s);
    if |h| == 32 then Read(16, h) else None
  }

  predicate NoDash(s: string) {
    forall i | 0 <= i < |s| :: s[i] != '-'
  }

  lemma {:induction false} DropDashesSplits(a: string, b: string)
    requires NoDash(a)
    ensures DropDashes(a + b) == a + DropDashes(b)
  {
    if a == "" {
      assert a + b == b;
    } else {
      DropDashesSplits(a[1..], b);
      assert (a + b)[1..] == a[1..] + b;
    }
  }

  lemma GroupDropped(a: string, b: string)
    requires NoDash(a)
    ensures DropDashes(a + ("-" + b)) == a + DropDashes(b)
  {
    DropDashesSplits(a, "-" + b);
    assert ("-" + b)[1..] == b;
  }

  lemma SliceNoDash(s: string, i: nat, j: nat)
    requires NoDash(s) && i <= j <= |s|
    ensures NoDash(s[i..j])
  {
  }

  lemma FormatNoDash(b: nat, n: nat, w: nat)
    requires 2 <= b <= 16
    ensures NoDash(Format(b, n, w))
  {
    FormatChars(b, n, w);
  }

  /** Taking the dashes out of five groups. */
  lemma DashesDropped(h: string)
    requires |h| == 32 && NoDash(h)
    ensures DropDashes(h[..8] + ("-" + (h[8..12] + ("-" + (h[12..16] + ("-" + (h[16..20] + ("-" + h[20..])))))))) == h
  {
    SliceNoDash(h, 0, 8);
    SliceNoDash(h, 8, 12);
    SliceNoDash(h, 12, 16);
    SliceNoDash(h, 16, 20);
    SliceNoDash(h, 20, 32);
    assert DropDashes("") == "";
    hide DropDashes, NoDash;
    var g0, g1, g2, g3, g4 := h[..8], h[8..12], h[12..16], h[16..20], h[20..];
    assert g4 + "" == g4;
    DropDashesSplits(g4, "");
    GroupDropped(g3, g4);
    GroupDropped(g2, g3 + ("-" + g4));
    GroupDropped(g1, g2 + ("-" + (g3 + ("-" + g4))));
    GroupDropped(g0, g1 + ("-" + (g2 + ("-" + (g3 + ("-" + g4))))));
    assert g0 + (g1 + (g2 + (g3 + g4))) == h;
  }

  lemma UuidRoundTrip(id: nat)
    requires id < Pow(16, 32)
    ensures ReadUuid(UuidText(id)) == Some(id)
  {
    FormatNoDash(16, id, 32);
    FormatRead(16, id, 32);
    DashesDropped(Format(16, id, 32));
  }

  // ---------- JSON ----------

  const OPEN: string := "{\"c\": \""
  const MIDDLE: string := "\", \"i\": \""
  const CLOSE: string := "\"}"

  /** json.dumps of the two-field object. */
  function Json(c: string, i: string): string {
    OPEN + (c + (MIDDLE + (i + CLOSE)))
  }

  /** The number of characters in front of the first quotation mark. */
  function UntilQuote(s: string): (n: nat)
    ensures n <= |s|
  {
    if s == "" || s[0] == '"' then 0 else 1 + UntilQuote(s[1..])
  }

  /** json.loads on what json.dumps writes for such an object; field texts have no escapes. */
  function ReadJson(s: string): Option<(string, string)> {
    if !(OPEN <= s) then None
    else
      var s1 := s[|OPEN|..];
      var c := s1[..UntilQuote(s1)];
      var s2 := s1[UntilQuote(s1)..];
      if !(MIDDLE <= s2) then None
      else
        var s3 := s2[|MIDDLE|..];
        var i := s3[..UntilQuote(s3)];
        if s3[UntilQuote(s3)..] == CLOSE then Some((c, i)) else None
  }

  predicate NoQuote(s: string) {
    forall k | 0 <= k < |s| :: s[k] != '"'
  }

  lemma {:induction false} QuoteFound(a: string, b: string)
    requires NoQuote(a) && b != "" && b[0] == '"'
    ensures UntilQuote(a + b) == |a|
  {
    if a == "" {
      assert a + b == b;
    } else {
      QuoteFound(a[1..], b);
      assert (a + b)[1..] == a[1..] + b;
    }
  }

  lemma JsonRoundTrip(c: string, i: string)
    requires NoQuote(c) && NoQuote(i)
    ensures ReadJson(Json(c, i)) == Some((c, i))
  {
    var s3 := i + CLOSE;
    var s2 := MIDDLE + s3;
    var s1 := c + s2;
    assert Json(c, i)[|OPEN|..] == s1;
    QuoteFound(c, s2);
    assert s1[..|c|] == c && s1[|c|..] == s2;
    assert s2[|MIDDLE|..] == s3;
    QuoteFound(i, CLOSE);
    assert s3[..|i|] == i && s3[|i|..] == CLOSE;
  }

  // ---------- the token ----------

  /** encode(): the tokens hold ASCII only. */
  function ToBytes(s: string): (b: seq<Base64.Byte>)
    requires Base64.IsAscii(s)
    ensures |b| == |s| && forall k | 0 <= k < |s| :: b[k] == s[k] as int
  {
    seq(|s|, k requires 0 <= k < |s| => s[k] as int as Base64.Byte)
  }

  function FromBytes(b: seq<Base64.Byte>): (s: string)
    ensures |s| == |b| && forall k | 0 <= k < |b| :: s[k] == b[k] as char
  {
    seq(|b|, k requires 0 <= k < |b| => b[k] as char)
  }

  lemma BytesRoundTrip(s: string)
    requires Base64.IsAscii(s)
    ensures FromBytes(ToBytes(s)) == s
  {
  }

  lemma {:induction false} FormatPlain(b: nat, n: nat, w: nat)
    requires 2 <= b <= 16
    ensures NoQuote(Format(b, n, w)) && Base64.IsAscii(Format(b, n, w))
  {
    if w > 0 {
      FormatPlain(b, Quotient(n, b), w - 1);
    }
  }

  lemma {:induction false} FormatFieldsPlain(values: seq<nat>, fields: seq<Field>, rest: string)
    requires |values| == |fields|
    requires forall f | f in fields :: NoQuote(f.sep) && Base64.IsAscii(f.sep)
    requires NoQuote(rest) && Base64.IsAscii(rest)
    ensures NoQuote(FormatFields(values, fields, rest)) && Base64.IsAscii(FormatFields(values, fields, rest))
  {
    if values != [] {
      assert fields[0] in fields;
      FormatPlain(10, values[0], fields[0].width);
      FormatFieldsPlain(values[1..], fields[1..], rest);
    }
  }

  lemma IsoPlain(t: Timestamp)
    ensures NoQuote(Iso(t)) && Base64.IsAscii(Iso(t))
  {
    FormatFieldsPlain([t.micro], MICROS, "");
    FormatFieldsPlain([t.year, t.month, t.day, t.hour, t.minute, t.second], DATE_TIME,
                      if t.micro == 0 then "+00:00" else "." + FormatFields([t.micro], MICROS, ""));
  }

  lemma UuidPlain(id: nat)
    ensures NoQuote(UuidText(id)) && Base64.IsAscii(UuidText(id))
  {
    FormatPlain(16, id, 32);
  }

  /** The keys that rows of the database can have. */
  predicate ValidKey(k: Key) {
    && k.createdAt >= 0 && InRange(TimestampOf(k.createdAt)) && Code(TimestampOf(k.createdAt)) == k.createdAt
    && k.id < Pow(16, 32)
  }

  function EncodeToken(k: Key): string
    requires ValidKey(k)
  {
    var t := TimestampOf(k.createdAt);
    IsoPlain(t);
    UuidPlain(k.id);
    Base64.Encode(ToBytes(Json(Iso(t), UuidText(k.id))))
  }

  // ---------- one token, letter by letter ----------

  lemma Formats()
    ensures Format(10, 2024, 4) == "2024" && Format(10, 2, 2) == "02" && Format(10, 29, 2) == "29"
    ensures Format(10, 13, 2) == "13" && Format(10, 5, 2) == "05" && Format(10, 9, 2) == "09"
    ensures Format(10, 1200, 6) == "001200"
  {
    assert Format(10, 20, 2) == "20" && Format(10, 202, 3) == "202";
    assert Format(10, 0, 2) == "00" && Format(10, 1, 3) == "001";
    assert Format(10, 12, 4) == "0012" && Format(10, 120, 5) == "00120";
  }

  /** isoformat with and without microseconds. */
  lemma IsoText()
    ensures Iso(Timestamp(2024, 2, 29, 13, 5, 9, 0)) == "2024-02-29T13:05:09" + "+00:00"
    ensures Iso(Timestamp(2024, 2, 29, 13, 5, 9, 1200)) == "2024-02-29T13:05:09" + ("." + ("001200" + "+00:00"))
  {
    Formats();
    FractionText();
    var fraction := FormatFields([1200], MICROS, "");
    FieldsText("+00:00");
    FieldsText("." + fraction);
    hide FormatFields, Format;
  }

  lemma FractionText()
    requires Format(10, 1200, 6) == "001200"
    ensures FormatFields([1200], MICROS, "") == "001200" + "+00:00"
  {
    hide Format;
    assert FormatFields([], [], "") == "";
    assert "+00:00" + "" == "+00:00";
  }

  lemma FieldsText(rest: string)
    requires Format(10, 2024, 4) == "2024" && Format(10, 2, 2) == "02" && Format(10, 29, 2) == "29"
    requires Format(10, 13, 2) == "13" && Format(10, 5, 2) == "05" && Format(10, 9, 2) == "09"
    ensures FormatFields([2024, 2, 29, 13, 5, 9], DATE_TIME, rest) == "2024-02-29T13:05:09" + rest
  {
    hide Format;
    var f5, f4, f3, f2, f1 := DATE_TIME[5..], DATE_TIME[4..], DATE_TIME[3..], DATE_TIME[2..], DATE_TIME[1..];
    assert FormatFields([9], f5, rest) == "09" + rest;
    assert FormatFields([5, 9], f4, rest) == "05:09" + rest;
    assert FormatFields([13, 5, 9], f3, rest) == "13:05:09" + rest;
    assert FormatFields([29, 13, 5, 9], f2, rest) == "29T13:05:09" + rest;
    assert FormatFields([2, 29, 13, 5, 9], f1, rest) == "02-29T13:05:09" + rest;
  }

  /** A UUID keeps its most significant digits in front. */
  lemma UuidEnds(high: nat, low: nat)
    requires high < 16 && low < 16
    ensures var text := UuidText(high * Pow(16, 31) + low);
            && |text| == 36 && text[0] == DigitChar(high) && text[35] == DigitChar(low)
            && (forall k | 0 < k < 35 :: text[k] == if k in {8, 13, 18, 23} then '-' else '0')
  {
    EndDigits(high, low);
  }

  lemma {:induction false} HighDigit(high: nat, w: nat)
    requires high < 16
    ensures Format(16, high * Pow(16, w), w + 1) == [DigitChar(high)] + Zeros(w)
  {
    if w > 0 {
      var p := Pow(16, w - 1);
      assert high * Pow(16, w) == 16 * (high * p);
      HighDigit(high, w - 1);
      assert Quotient(16 * (high * p), 16) == high * p && (16 * (high * p)) % 16 == 0;
    } else {
      assert Pow(16, 0) == 1;
      assert Format(16, high, 1) == Format(16, Quotient(high, 16), 0) + [DigitChar(high)];
    }
  }

  function Zeros(n: nat): (z: string)
    ensures |z| == n && forall k | 0 <= k < n :: z[k] == '0'
  {
    if n == 0 then "" else Zeros(n - 1) + "0"
  }

  lemma EndDigits(high: nat, low: nat)
    requires high < 16 && low < 16
    ensures Format(16, high * Pow(16, 31) + low, 32) == [DigitChar(high)] + Zeros(30) + [DigitChar(low)]
  {
    var p := Pow(16, 30);
    assert high * Pow(16, 31) == 16 * (high * p);
    var n := 16 * (high * p) + low;
    assert Quotient(n, 16) == high * p && n % 16 == low;
    HighDigit(high, 30);
    hide Pow, Quotient;
    assert Format(16, n, 32) == Format(16, Quotient(n, 16), 31) + [DigitChar(n % 16)];
  }

  /** The JSON text of a token, and the token. */
  lemma TokenText(k: Key)
    requires ValidKey(k) && TimestampOf(k.createdAt) == Timestamp(2024, 2, 29, 13, 5, 9, 1200)
    ensures var c := "2024-02-29T13:05:09" + ("." + ("001200" + "+00:00"));
            var json := "{\"c\": \"" + (c + ("\", \"i\": \"" + (UuidText(k.id) + "\"}")));
            Base64.IsAscii(json) && EncodeToken(k) == Base64.Encode(ToBytes(json))
  {
    IsoText();
    IsoPlain(TimestampOf(k.createdAt));
    UuidPlain(k.id);
    JsonPlain(Iso(TimestampOf(k.createdAt)), UuidText(k.id));
    hide Iso, UuidText, Base64.Encode, TimestampOf;
  }

  /** A member of a JSON object: a string, or a value of another type. */
  datatype Member = Text(s: string) | NonText

  /** What json.loads gives: an exception, an object, or a value that is no object. */
  datatype Loaded = NotJson | Object(members: map<string, Member>) | OtherValue

  type Loader = seq<Base64.Byte> -> Loaded

  /** A point in time as the query compares it; OutOfRange cannot be converted to UTC, and the query raises. */
  datatype Instant = Instant(code: int) | OutOfRange

  /**
   Python's readers are parameters: json.loads, datetime.fromisoformat and uuid.UUID, the last two on
   strings, where None stands for their ValueError. They accept far more than the service writes.
   */
  datatype Python = Python(loads: Loader, fromIso: string -> Option<Instant>, uuid: string -> Option<nat>)

  /**
   All that is asked of the readers is that they read back what isoformat writes for a UTC datetime,
   what str writes for a UUID, and what json.dumps writes for an object of two such texts.
   */
  ghost predicate Inverts(py: Python) {
    && (forall t, id: nat | InRange(t) && id < Pow(16, 32) :: ReadsDump(py.loads, Iso(t), UuidText(id)))
    && (forall t | InRange(t) :: py.fromIso(Iso(t)) == Some(Instant(Code(t))))
    && (forall id: nat | id < Pow(16, 32) :: py.uuid(UuidText(id)) == Some(id))
  }

  ghost predicate ReadsDump(load: Loader, c: string, i: string) {
    Base64.IsAscii(Json(c, i)) ==> load(ToBytes(Json(c, i))) == Object(map["c" := Text(c), "i" := Text(i)])
  }

  /** What the handler makes of a token: a position, no position, or an exception it does not catch. */
  datatype Handled = At(key: Key) | FirstPage | ServerError

  /**
   Missing members and unreadable texts are caught. A value of the wrong type raises TypeError or
   AttributeError, which are not.
   */
  function HandleLoaded(py: Python, l: Loaded): Handled {
    match l
    case NotJson => FirstPage
    case OtherValue => ServerError
    case Object(m) =>
      if "c" !in m then FirstPage
      else if m["c"].NonText? then ServerError
      else
        var createdAt := py.fromIso(m["c"].s);
        if createdAt.None? then FirstPage
        // from here on cursor_created_at is set, but without cursor_id it adds no condition
        else if "i" !in m then FirstPage
        else if m["i"].NonText? then ServerError
        else
          var id := py.uuid(m["i"].s);
          if id.None? then FirstPage
          else
            match createdAt.value
            case OutOfRange => ServerError
            case Instant(code) => At(Key(code, id.value))
  }

  function HandleToken(py: Python, token: Option<string>): Handled {
    if token.None? || token.value == "" then FirstPage
    else
      var bytes := Base64.Decode(token.value);
      if bytes.None? then FirstPage else HandleLoaded(py, py.loads(bytes.value))
  }

  /** Readers of this kind exist: those of this module, for example. */
  lemma ReadersExist()
    ensures Inverts(Python(ReadDumps, ReadInstant, ReadUuid))
  {
    forall t, id: nat | InRange(t) && id < Pow(16, 32)
      ensures ReadsDump(ReadDumps, Iso(t), UuidText(id))
    {
      DumpsRead(t, id);
    }
    forall t | InRange(t)
      ensures ReadInstant(Iso(t)) == Some(Instant(Code(t)))
    {
      IsoRoundTrip(t);
    }
    forall id: nat | id < Pow(16, 32)
      ensures ReadUuid(UuidText(id)) == Some(id)
    {
      UuidRoundTrip(id);
    }
  }

  lemma DumpsRead(t: Timestamp, id: nat)
    ensures ReadsDump(ReadDumps, Iso(t), UuidText(id))
  {
    var c, i := Iso(t), UuidText(id);
    IsoPlain(t);
    UuidPlain(id);
    JsonPlain(c, i);
    hide Iso, UuidText, ReadJson, Json;
    BytesRoundTrip(Json(c, i));
    JsonRoundTrip(c, i);
  }

  function ReadDumps(b: seq<Base64.Byte>): Loaded {
    var r := ReadJson(FromBytes(b));
    if r.None? then NotJson else Object(map["c" := Text(r.value.0), "i" := Text(r.value.1)])
  }

  function ReadInstant(s: string): Option<Instant> {
    var t := ReadIso(s);
    if t.None? then None else Some(Instant(Code(t.value)))
  }

  /** Decoding the emitted token recovers exactly the created_at and id of the row it was made from. */
  lemma TokenRoundTrip(py: Python, k: Key)
    requires Inverts(py)
    requires ValidKey(k)
    ensures HandleToken(py, Some(EncodeToken(k))) == At(k)
  {
    var t := TimestampOf(k.createdAt);
    assert InRange(t) && Code(t) == k.createdAt && k.id < Pow(16, 32);
    assert py.fromIso(Iso(t)) == Some(Instant(k.createdAt)) && py.uuid(UuidText(k.id)) == Some(k.id);
    var c, i := Iso(t), UuidText(k.id);
    WrittenIsHandled(py, k, c, i);
    assert ReadsDump(py.loads, c, i);
    hide *;
    IsoPlain(t);
    UuidPlain(k.id);
    JsonPlain(c, i);
    var bytes := ToBytes(Json(c, i));
    TokenIs(k, t, bytes);
    Base64.RoundTrip(bytes);
    Base64.EncodeNonEmpty(bytes);
    LoadedIs(py.loads, c, i);
    TokenHandled(py, EncodeToken(k), bytes);
  }

  lemma WrittenIsHandled(py: Python, k: Key, c: string, i: string)
    requires py.fromIso(c) == Some(Instant(k.createdAt)) && py.uuid(i) == Some(k.id)
    ensures HandleLoaded(py, Object(map["c" := Text(c), "i" := Text(i)])) == At(k)
  {
  }

  lemma JsonPlain(c: string, i: string)
    requires Base64.IsAscii(c) && Base64.IsAscii(i)
    ensures Base64.IsAscii(Json(c, i)) && Json(c, i) != ""
  {
  }

  lemma TokenIs(k: Key, t: Timestamp, bytes: seq<Base64.Byte>)
    requires ValidKey(k) && t == TimestampOf(k.createdAt)
    requires Base64.IsAscii(Json(Iso(t), UuidText(k.id))) && Json(Iso(t), UuidText(k.id)) != ""
    requires bytes == ToBytes(Json(Iso(t), UuidText(k.id)))
    ensures EncodeToken(k) == Base64.Encode(bytes) && bytes != []
  {
    hide Iso, UuidText, Json, Base64.Encode;
  }

  lemma LoadedIs(load: Loader, c: string, i: string)
    requires ReadsDump(load, c, i) && Base64.IsAscii(Json(c, i))
    ensures load(ToBytes(Json(c, i))) == Object(map["c" := Text(c), "i" := Text(i)])
  {
  }

  lemma TokenHandled(py: Python, token: string, bytes: seq<Base64.Byte>)
    requires token != "" && Base64.Decode(token) == Some(bytes)
    ensures HandleToken(py, Some(token)) == HandleLoaded(py, py.loads(bytes))
  {
    hide HandleLoaded;
  }

  /** Every timestamp in range has a key. */
  lemma EveryTimestampHasKey(t: Timestamp, id: nat)
    requires InRange(t) && id < Pow(16, 32)
    ensures ValidKey(Key(Code(t), id))
  {
    CodeRoundTrip(t);
  }

  ghost predicate ValidKeys(t: set<User>) {
    forall u | u in t :: ValidKey(KeyOf(u))
  }

  /** The position a handled token stands for. */
  function CursorOf(h: Handled): Option<Key> {
    if h.At? then Some(h.key) else None
  }

  function FilterOf(fold: char -> char, filters: Filters): User -> bool {
    u => Passes(fold, filters, u)
  }

  /** The rows of a page and the token of the next. */
  datatype Answer = Answer(users: seq<User>, next: Option<string>)

  /** What is answered to a token: the page of its position, and a token for the page's last row. */
  ghost predicate Answers(py: Python, t: set<User>, filter: User -> bool, limit: nat, cursor: Option<string>,
                          answer: Answer)
    requires limit >= 1
    requires UniqueIds(t)
  {
    var page := PageOf(t, filter, CursorOf(HandleToken(py, cursor)), limit);
    && answer.users == page.rows
    && (answer.next.None? <==> page.next.None?)
    && (answer.next.Some? ==> HandleToken(py, answer.next) == At(page.next.value))
  }

  /** UserService.list_users_cursor from token to token; an uncaught exception answers nothing. */
  method ListUsersCursor(py: Python, t: set<User>, fold: char -> char, filters: Filters, cursor: Option<string>,
                         limit: nat) returns (answer: Option<Answer>)
    requires Inverts(py)
    requires UniqueIds(t) && ValidKeys(t)
    requires limit >= 1
    ensures answer.None? <==> HandleToken(py, cursor) == ServerError
    ensures answer.Some? ==> Answers(py, t, FilterOf(fold, filters), limit, cursor, answer.value)
  {
    var handled := HandleToken(py, cursor);
    if handled.ServerError? {
      return None;
    }
    var filter := FilterOf(fold, filters);
    var page := ListCursor(t, filter, CursorOf(handled), limit);
    var next := None;
    if page.next.Some? {
      PageShape(t, filter, CursorOf(handled), limit);
      PageInterval(t, filter, CursorOf(handled), limit, page.rows[limit - 1]);
      TokenRoundTrip(py, page.next.value);
      next := Some(EncodeToken(page.next.value));
    }
    return Some(Answer(page.rows, next));
  }

  /**
   What the JSON value must be for the handler to raise an exception that nothing catches: no object
   at all, a time that is no string, an id that is no string behind a readable time, or a readable
   id behind a time that cannot be converted to UTC.
   */
  predicate Breaks(py: Python, l: Loaded) {
    match l
    case NotJson => false
    case OtherValue => true
    case Object(m) =>
      || ("c" in m && m["c"].NonText?)
      || ("c" in m && m["c"].Text? && py.fromIso(m["c"].s).Some? && "i" in m && m["i"].NonText?)
      || ("c" in m && m["c"].Text? && py.fromIso(m["c"].s) == Some(OutOfRange)
          && "i" in m && m["i"].Text? && py.uuid(m["i"].s).Some?)
  }

  /** The JSON value holds a readable time and a readable id. */
  predicate Locates(py: Python, l: Loaded, k: Key) {
    && l.Object? && "c" in l.members && "i" in l.members
    && l.members["c"].Text? && py.fromIso(l.members["c"].s) == Some(Instant(k.createdAt))
    && l.members["i"].Text? && py.uuid(l.members["i"].s) == Some(k.id)
  }

  /**
   A token that gives no position is meant to be answered with the first page. It is exactly when it
   is not base64 over a JSON value that breaks the handler; and it gives a position exactly when it
   is base64 over one that holds a readable time and a readable id.
   */
  lemma RejectedIsFirstPageIff(py: Python, token: string)
    requires token != ""
    ensures var bytes := Base64.Decode(token);
            && (forall k :: HandleToken(py, Some(token)) == At(k)
                            <==> bytes.Some? && Locates(py, py.loads(bytes.value), k))
            && (!HandleToken(py, Some(token)).At? ==>
                  (HandleToken(py, Some(token)) == FirstPage <==> !(bytes.Some? && Breaks(py, py.loads(bytes.value)))))
  {
    hide Base64.Decode;
  }

  /** An id that is no string behind a time that is readable breaks it, whatever else the token holds. */
  lemma NumberAsIdFails(py: Python, bytes: seq<Base64.Byte>)
    requires bytes != []
    requires py.loads(bytes).Object?
    requires var m := py.loads(bytes).members;
             && "c" in m && m["c"].Text? && py.fromIso(m["c"].s).Some?
             && "i" in m && m["i"].NonText?
    ensures HandleToken(py, Some(Base64.Encode(bytes))) == ServerError
  {
    Base64.RoundTrip(bytes);
    Base64.EncodeNonEmpty(bytes);
  }

  /** The bytes of {"c": "2024-01-01", "i": 5}. */
  const WRONG_TYPE: seq<Base64.Byte> := [
    123, 34, 99, 34, 58, 32, 34, 50, 48, 50, 52, 45, 48, 49, 45, 48, 49, 34, 44, 32, 34, 105, 34, 58, 32, 53, 125]

  /** One such token: base64 over {"c": "2024-01-01", "i": 5}. */
  lemma WrongTypeFails(py: Python)
    requires py.loads(WRONG_TYPE) == Object(map["c" := Text("2024-01-01"), "i" := NonText])
    requires py.fromIso("2024-01-01").Some?
    ensures HandleToken(py, Some(Base64.Encode(WRONG_TYPE))) == ServerError
  {
    hide Base64.Encode, HandleToken;
    NumberAsIdFails(py, WRONG_TYPE);
  }

  /** Another: base64 over [], in which there is nothing to look up by name. */
  lemma ListFails(py: Python)
    requires py.loads([91, 93]).OtherValue?
    ensures HandleToken(py, Some("W10=")) == ServerError
  {
    assert Base64.Encode([91, 93]) == "W10=";
    Base64.RoundTrip([91, 93]);
  }
}

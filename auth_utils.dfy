/** app/apis/auth/utils.py: the per-user session-set key and the JSON encoder
    hook that writes `datetime` values as ISO 8601 text. */
module AuthUtils {
  import opened Common

  // ---------------------------------------------------------------------------
  // Session-set key
  // ---------------------------------------------------------------------------

  const SessionsPrefix := "sessions:"

  /** `get_session_key(user_id)`: the user id behind the `sessions:` prefix. */
  function GetSessionKey(userId: string): (k: string)
    ensures |k| == |SessionsPrefix| + |userId|
    ensures k[..|SessionsPrefix|] == SessionsPrefix
    ensures k[|SessionsPrefix|..] == userId
  {
    SessionsPrefix + userId
  }

  /** Distinct user ids give distinct keys. */
  lemma GetSessionKeyInjective(a: string, b: string)
    ensures GetSessionKey(a) == GetSessionKey(b) ==> a == b
  {
  }

  // ---------------------------------------------------------------------------
  // Decimal fields
  // ---------------------------------------------------------------------------

  function Pow10(width: nat): (p: nat)
    ensures p >= 1
  {
    if width == 0 then 1 else 10 * Pow10(width - 1)
  }

  predicate IsDigit(c: char) {
    '0' <= c <= '9'
  }

  /** `n` written with exactly `width` decimal digits, zero-filled on the left
      (Python's `%0*d` for values that fit). */
  function Pad(n: nat, width: nat): (s: string)
    ensures |s| == width
    ensures forall i :: 0 <= i < |s| ==> IsDigit(s[i])
  {
    if width == 0 then []
    else Pad(n / 10, width - 1) + [('0' as int + n % 10) as char]
  }

  predicate AllDigits(s: string) {
    forall i :: 0 <= i < |s| ==> IsDigit(s[i])
  }

  /** The value of a string of decimal digits. */
  function ParseDigits(s: string): nat
    requires AllDigits(s)
  {
    if s == [] then 0
    else
      assert IsDigit(s[|s| - 1]);
      10 * ParseDigits(s[..|s| - 1]) + (s[|s| - 1] as int - '0' as int)
  }

  lemma {:induction false} ParsePad(n: nat, width: nat)
    requires n < Pow10(width)
    ensures ParseDigits(Pad(n, width)) == n
  {
    if width > 0 {
      var s := Pad(n, width);
      assert s[..|s| - 1] == Pad(n / 10, width - 1);
      ParsePad(n / 10, width - 1);
    }
  }

  // ---------------------------------------------------------------------------
  // datetime.isoformat()
  // ---------------------------------------------------------------------------

  /** A `datetime.datetime`: date, time to the microsecond, and an optional UTC
      offset in whole minutes (a naive value has none). */
  datatype DateTime = DateTime(
    year: nat, month: nat, day: nat, hour: nat, minute: nat, second: nat,
    microsecond: nat, utcOffsetMinutes: Option<int>)

  predicate IsLeapYear(y: nat) {
    y % 4 == 0 && (y % 100 != 0 || y % 400 == 0)
  }

  function DaysInMonth(y: nat, m: nat): nat
    requires 1 <= m <= 12
  {
    if m == 2 then (if IsLeapYear(y) then 29 else 28)
    else if m in {4, 6, 9, 11} then 30
    else 31
  }

  /** The ranges `datetime` enforces on construction; offsets are strictly
      within one day. */
  predicate ValidDateTime(d: DateTime) {
    && 1 <= d.year <= 9999 && 1 <= d.month <= 12 && 1 <= d.day <= DaysInMonth(d.year, d.month)
    && d.hour < 24 && d.minute < 60 && d.second < 60 && d.microsecond < 1000000
    && (d.utcOffsetMinutes.Some? ==> -1440 < d.utcOffsetMinutes.value < 1440)
  }

  function DatePart(d: DateTime): (s: string)
    ensures |s| == 10
  {
    Pad(d.year, 4) + "-" + Pad(d.month, 2) + "-" + Pad(d.day, 2)
  }

  function TimePart(d: DateTime): (s: string)
    ensures |s| == 8
  {
    Pad(d.hour, 2) + ":" + Pad(d.minute, 2) + ":" + Pad(d.second, 2)
  }

  /** `.ffffff`, written only when the microsecond is not zero. */
  function FractionPart(d: DateTime): (s: string)
    ensures |s| == if d.microsecond == 0 then 0 else 7
  {
    if d.microsecond == 0 then [] else "." + Pad(d.microsecond, 6)
  }

  function Abs(m: int): nat {
    if m < 0 then -m else m
  }

  /** `+HH:MM` or `-HH:MM`, written only for an aware value. */
  function OffsetPart(d: DateTime): (s: string)
    requires ValidDateTime(d)
    ensures |s| == if d.utcOffsetMinutes.None? then 0 else 6
  {
    match d.utcOffsetMinutes
    case None => []
    case Some(m) =>
      [if m < 0 then '-' else '+'] + Pad(Abs(m) / 60, 2) + ":" + Pad(Abs(m) % 60, 2)
  }

  /** `datetime.isoformat()`: `YYYY-MM-DDTHH:MM:SS[.ffffff][+HH:MM]`. */
  function IsoFormat(d: DateTime): (s: string)
    requires ValidDateTime(d)
    ensures |s| == 19 + |FractionPart(d)| + |OffsetPart(d)|
  {
    DatePart(d) + "T" + TimePart(d) + FractionPart(d) + OffsetPart(d)
  }

  /** A field of `width` digits starting at `at`. */
  function Field(s: string, at: nat, width: nat): Option<nat>
    requires at + width <= |s|
  {
    if AllDigits(s[at..at + width]) then Some(ParseDigits(s[at..at + width])) else None
  }

  /** A padded field reads back as its value. */
  lemma FieldOfPad(s: string, at: nat, n: nat, width: nat)
    requires at + width <= |s| && s[at..at + width] == Pad(n, width) && n < Pow10(width)
    ensures Field(s, at, width) == Some(n)
  {
    ParsePad(n, width);
  }

  /** `YYYY-MM-DD`. */
  function ParseDate(s: string): Option<(nat, nat, nat)>
    requires |s| == 10
  {
    if s[4] != '-' || s[7] != '-' then None
    else match (Field(s, 0, 4), Field(s, 5, 2), Field(s, 8, 2))
      case (Some(y), Some(m), Some(d)) => Some((y, m, d))
      case _ => None
  }

  /** `HH:MM:SS`. */
  function ParseTime(s: string): Option<(nat, nat, nat)>
    requires |s| == 8
  {
    if s[2] != ':' || s[5] != ':' then None
    else match (Field(s, 0, 2), Field(s, 3, 2), Field(s, 6, 2))
      case (Some(h), Some(m), Some(sec)) => Some((h, m, sec))
      case _ => None
  }

  /** Nothing (microsecond 0) or `.ffffff`. */
  function ParseFraction(s: string): Option<nat>
    requires |s| == 0 || |s| == 7
  {
    if |s| == 0 then Some(0)
    else if s[0] != '.' then None
    else Field(s, 1, 6)
  }

  /** Nothing (naive) or `+HH:MM` / `-HH:MM`, as signed minutes. */
  function ParseOffset(s: string): Option<Option<int>>
    requires |s| == 0 || |s| == 6
  {
    if |s| == 0 then Some(None)
    else if !(s[0] in {'+', '-'}) || s[3] != ':' then None
    else match (Field(s, 1, 2), Field(s, 4, 2))
      case (Some(h), Some(m)) => Some(Some(if s[0] == '-' then -(60 * h + m) else 60 * h + m))
      case _ => None
  }

  /** `datetime.fromisoformat` restricted to the shapes `isoformat()` writes:
      19 characters, optionally 7 of fraction, optionally 6 of offset. */
  function ParseIso(s: string): (r: Option<DateTime>)
    ensures r.Some? ==> ValidDateTime(r.value)
  {
    if |s| !in {19, 25, 26, 32} || s[10] != 'T' then None
    else
      var o := if |s| == 26 || |s| == 32 then 26 else 19;
      match (ParseDate(s[..10]), ParseTime(s[11..19]), ParseFraction(s[19..o]), ParseOffset(s[o..]))
      case (Some(date), Some(time), Some(micro), Some(offset)) =>
        var d := DateTime(date.0, date.1, date.2, time.0, time.1, time.2, micro, offset);
        if ValidDateTime(d) then Some(d) else None
      case _ => None
  }

  lemma ParseDatePart(d: DateTime)
    requires ValidDateTime(d)
    ensures ParseDate(DatePart(d)) == Some((d.year, d.month, d.day))
  {
    var s := DatePart(d);
    assert Pow10(2) == 100 && Pow10(4) == 10000;
    assert s[0..4] == Pad(d.year, 4);
    assert s[5..7] == Pad(d.month, 2);
    assert s[8..10] == Pad(d.day, 2);
    FieldOfPad(s, 0, d.year, 4);
    FieldOfPad(s, 5, d.month, 2);
    FieldOfPad(s, 8, d.day, 2);
  }

  lemma ParseTimePart(d: DateTime)
    requires ValidDateTime(d)
    ensures ParseTime(TimePart(d)) == Some((d.hour, d.minute, d.second))
  {
    var s := TimePart(d);
    assert Pow10(2) == 100;
    assert s[0..2] == Pad(d.hour, 2);
    assert s[3..5] == Pad(d.minute, 2);
    assert s[6..8] == Pad(d.second, 2);
    FieldOfPad(s, 0, d.hour, 2);
    FieldOfPad(s, 3, d.minute, 2);
    FieldOfPad(s, 6, d.second, 2);
  }

  lemma ParseFractionPart(d: DateTime)
    requires ValidDateTime(d)
    ensures ParseFraction(FractionPart(d)) == Some(d.microsecond)
  {
    if d.microsecond != 0 {
      var s := FractionPart(d);
      assert Pow10(6) == 1000000;
      assert s[1..7] == Pad(d.microsecond, 6);
      FieldOfPad(s, 1, d.microsecond, 6);
    }
  }

  lemma ParseOffsetPart(d: DateTime)
    requires ValidDateTime(d)
    ensures ParseOffset(OffsetPart(d)) == Some(d.utcOffsetMinutes)
  {
    if d.utcOffsetMinutes.Some? {
      var m := d.utcOffsetMinutes.value;
      var s := OffsetPart(d);
      assert Pow10(2) == 100;
      assert s[1..3] == Pad(Abs(m) / 60, 2);
      assert s[4..6] == Pad(Abs(m) % 60, 2);
      FieldOfPad(s, 1, Abs(m) / 60, 2);
      FieldOfPad(s, 4, Abs(m) % 60, 2);
    }
  }

  /** `isoformat` loses nothing: the text reads back as the same datetime. */
  lemma {:induction false} IsoFormatRoundTrip(d: DateTime)
    requires ValidDateTime(d)
    ensures ParseIso(IsoFormat(d)) == Some(d)
  {
    var s := IsoFormat(d);
    var frac := FractionPart(d);
    var o := 19 + |frac|;
    assert s[..10] == DatePart(d);
    assert s[10] == 'T';
    assert s[11..19] == TimePart(d);
    assert s[19..o] == frac;
    assert s[o..] == OffsetPart(d);
    ParseDatePart(d);
    ParseTimePart(d);
    ParseFractionPart(d);
    ParseOffsetPart(d);
  }

  // ---------------------------------------------------------------------------
  // DateTimeEncoder
  // ---------------------------------------------------------------------------

  /** The objects `json.dumps` hands to `default`: a datetime, or a value of
      some other type that the base encoder does not know. */
  datatype PyObject = PyDateTime(dt: DateTime) | PyOther(typeName: string)

  /** What `default` returns, or the TypeError it raises. */
  datatype EncodeResult = Encoded(text: string) | TypeError(message: string)

  /** `DateTimeEncoder.default(obj)`: a datetime becomes its ISO 8601 text;
      anything else goes to `JSONEncoder.default`, which raises TypeError. */
  function DateTimeEncoderDefault(obj: PyObject): (r: EncodeResult)
    requires obj.PyDateTime? ==> ValidDateTime(obj.dt)
    ensures r.Encoded? <==> obj.PyDateTime?
    ensures r.Encoded? ==> r.text == IsoFormat(obj.dt) && ParseIso(r.text) == Some(obj.dt)
    ensures r.TypeError? ==> r.message == "Object of type " + obj.typeName + " is not JSON serializable"
  {
    match obj
    case PyDateTime(dt) =>
      IsoFormatRoundTrip(dt);
      Encoded(IsoFormat(dt))
    case PyOther(typeName) => TypeError("Object of type " + typeName + " is not JSON serializable")
  }
}

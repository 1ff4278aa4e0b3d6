/**
 Audit cursors: the creation time and id of an entry, printed in decimal around a colon and
 base64-encoded. Base64 is taken as a faithful wrapper: a cursor text either wraps a payload or
 is not base64 at all.
 */
module AuditCursor {
  import opened Text

  datatype AuditEntry = AuditEntry(id: int, actor: string, action: string, target: string, scope: string,
                                   createdAt: int)

  /** Times are nanoseconds since 1970; `ZERO_TIME` is Go's zero time, the start of year 1. */
  const ZERO_TIME: int := -62135596800000000000

  const INT64_MIN: int := -0x8000_0000_0000_0000
  const INT64_MAX: int := 0x7FFF_FFFF_FFFF_FFFF

  predicate IsInt64(n: int) {
    INT64_MIN <= n <= INT64_MAX
  }

  /** Two's complement wrap-around of a 64-bit integer. */
  function ToInt64(n: int): (r: int)
    ensures IsInt64(r)
    ensures IsInt64(n) ==> r == n
  {
    (n + 0x8000_0000_0000_0000) % 0x1_0000_0000_0000_0000 - 0x8000_0000_0000_0000
  }

  datatype Cursor = NoCursor | Base64(payload: string) | NotBase64

  datatype Position = Position(time: int, id: int)

  datatype Decoded = Ok(position: Position) | DecodeError

  function ClampLimit(limit: int): (r: nat)
    ensures 1 <= r <= 100
    ensures 1 <= limit <= 100 ==> r == limit
    ensures limit <= 0 ==> r == 20
    ensures limit > 100 ==> r == 100
  {
    if limit <= 0 then 20 else if limit > 100 then 100 else limit
  }

  // ----- Decimal numbers -----

  predicate IsDigit(c: char) {
    '0' <= c <= '9'
  }

  function DigitChar(d: nat): (c: char)
    requires d < 10
    ensures IsDigit(c) && DigitValue(c) == d
  {
    '0' + d as char
  }

  function DigitValue(c: char): nat
    requires IsDigit(c)
  {
    (c - '0') as nat
  }

  function PrintNat(n: nat): (s: string)
    ensures |s| > 0
  {
    if n < 10 then [DigitChar(n)] else PrintNat(n / 10) + [DigitChar(n % 10)]
  }

  function PrintInt(n: int): string {
    if n < 0 then "-" + PrintNat(-n) else PrintNat(n)
  }

  function ParseNat(s: string): Option<nat> {
    if s == "" || !IsDigit(s[|s| - 1]) then None
    else if |s| == 1 then Some(DigitValue(s[0]))
    else
      var high := ParseNat(s[..|s| - 1]);
      if high.None? then None else Some(10 * high.value + DigitValue(s[|s| - 1]))
  }

  /** `strconv.ParseInt(s, 10, 64)`. */
  function ParseInt(s: string): Option<int> {
    var digits := if s != "" && (s[0] == '-' || s[0] == '+') then s[1..] else s;
    var magnitude := ParseNat(digits);
    if magnitude.None? then None
    else
      var n: int := if s[0] == '-' then 0 - magnitude.value else magnitude.value;
      if IsInt64(n) then Some(n) else None
  }

  predicate AllDigits(s: string) {
    forall k :: 0 <= k < |s| ==> IsDigit(s[k])
  }

  lemma {:induction false} ParsePrintNat(n: nat)
    ensures ParseNat(PrintNat(n)) == Some(n) && AllDigits(PrintNat(n))
  {
    if n >= 10 {
      var high := PrintNat(n / 10);
      ParsePrintNat(n / 10);
      assert (high + [DigitChar(n % 10)])[..|high|] == high;
    }
  }

  lemma ParsePrintInt(n: int)
    requires IsInt64(n)
    ensures ParseInt(PrintInt(n)) == Some(n) && ':' !in PrintInt(n)
  {
    hide PrintNat, ParseNat;
    var digits := PrintNat(if n < 0 then -n else n);
    ParsePrintNat(if n < 0 then -n else n);
    assert IsDigit(digits[0]);
    if n < 0 { assert ("-" + digits)[1..] == digits; }
  }

  // ----- Encoding and decoding -----

  function EncodeAuditCursor(entry: AuditEntry): Cursor {
    Base64(PrintInt(ToInt64(entry.createdAt)) + ":" + PrintInt(entry.id))
  }

  function IndexOfColon(s: string, from: nat): (i: nat)
    requires from <= |s|
    ensures from <= i <= |s|
    ensures forall k :: from <= k < i ==> s[k] != ':'
    ensures i < |s| ==> s[i] == ':'
    decreases |s| - from
  {
    if from == |s| || s[from] == ':' then from else IndexOfColon(s, from + 1)
  }

  function DecodeAuditCursor(cursor: Cursor): Decoded {
    match cursor
    case NoCursor => Ok(Position(ZERO_TIME, 0))
    case NotBase64 => DecodeError
    case Base64(raw) =>
      var colon := IndexOfColon(raw, 0);
      if colon == |raw| then DecodeError
      else
        var time, id := ParseInt(raw[..colon]), ParseInt(raw[colon + 1..]);
        if time.None? || id.None? then DecodeError else Ok(Position(time.value, id.value))
  }

  lemma SplitAtColon(time: string, id: string)
    requires ':' !in time
    ensures var raw := time + ":" + id;
      IndexOfColon(raw, 0) == |time| && raw[..|time|] == time && raw[|time| + 1..] == id
  {
    var raw := time + ":" + id;
    assert raw[|time|] == ':';
    assert forall k :: 0 <= k < |time| ==> raw[k] == time[k] && raw[k] != ':';
  }

  /** Decoding an encoded cursor gives the entry's id and its time, the time exactly when it fits
      64 bits; and no decoded cursor is ever mistaken for the empty one. */
  lemma CursorRoundTrip(entry: AuditEntry)
    requires IsInt64(entry.id)
    ensures DecodeAuditCursor(EncodeAuditCursor(entry)) == Ok(Position(ToInt64(entry.createdAt), entry.id))
    ensures ToInt64(entry.createdAt) == entry.createdAt <==> IsInt64(entry.createdAt)
    ensures ToInt64(entry.createdAt) != ZERO_TIME
  {
    hide PrintInt, ParseInt;
    var time, id := PrintInt(ToInt64(entry.createdAt)), PrintInt(entry.id);
    ParsePrintInt(ToInt64(entry.createdAt));
    ParsePrintInt(entry.id);
    SplitAtColon(time, id);
  }

  /** Decimal notation: a digit stands for itself, and one more digit appends it. */
  lemma PrintsDecimal(n: nat, digit: nat)
    requires digit < 10
    ensures PrintNat(digit) == ["0123456789"[digit]]
    ensures n > 0 ==> PrintNat(10 * n + digit) == PrintNat(n) + ["0123456789"[digit]]
  {
    assert (10 * n + digit) / 10 == n && (10 * n + digit) % 10 == digit;
  }

  /** A cursor text: the creation time in nanoseconds, a colon, and the id. */
  lemma CursorText(entry: AuditEntry)
    requires entry.createdAt == -12 && entry.id == 34
    ensures EncodeAuditCursor(entry) == Base64("-12:34")
  {
    PrintsDecimal(1, 2);
    PrintsDecimal(0, 1);
    PrintsDecimal(3, 4);
    PrintsDecimal(0, 3);
  }
}

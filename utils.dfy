/*
 * The integer scanner used by the command line: an optional '-' followed by
 * decimal digits, read from a NUL-terminated character string. The line is
 * a sequence of characters; reading past its end yields NUL, as reading the
 * terminator would. The digit counter is an 8-bit unsigned value and only
 * the first MAX_DIGITS digits are accumulated, in a 32-bit accumulator; the
 * result is stored into an `int`, which is 16 bits wide on the robot's
 * ATmega328.
 */
module LineParsing {

  const MAX_DIGITS: int := 8

  predicate IsDigit(c: char)
  {
    '0' <= c <= '9'
  }

  function DigitValue(c: char): int
    requires IsDigit(c)
  {
    c as int - '0' as int
  }

  /** The character at position `i` of a NUL-terminated string. */
  function At(line: seq<char>, i: nat): char
  {
    if i < |line| then line[i] else '\0'
  }

  /** The line after its optional leading '-'. */
  function Unsigned(line: seq<char>): seq<char>
  {
    if |line| > 0 && line[0] == '-' then line[1..] else line
  }

  predicate IsNegative(line: seq<char>)
  {
    |line| > 0 && line[0] == '-'
  }

  /** The number of digits at the front of `s`. */
  function DigitRun(s: seq<char>): (r: nat)
    ensures r <= |s|
    ensures forall i | 0 <= i < r :: IsDigit(s[i])
    ensures r < |s| ==> !IsDigit(s[r])
  {
    if |s| == 0 || !IsDigit(s[0]) then 0 else 1 + DigitRun(s[1..])
  }

  /** The value of a string of decimal digits, most significant first. */
  function Decimal(s: seq<char>): nat
    requires forall i | 0 <= i < |s| :: IsDigit(s[i])
  {
    if |s| == 0 then 0 else 10 * Decimal(s[..|s| - 1]) + DigitValue(s[|s| - 1])
  }

  function Min(a: int, b: int): int
  {
    if a < b then a else b
  }

  /** The value a scan of `line` stores when it finds between 1 and 255
      digits: the number formed by the first MAX_DIGITS of them, negated
      after a '-'. */
  function ScannedValue(line: seq<char>): int
    requires DigitRun(Unsigned(line)) > 0
  {
    var body := Unsigned(line);
    var magnitude: int := Decimal(body[..Min(DigitRun(body), MAX_DIGITS)]);
    if IsNegative(line) then -magnitude else magnitude
  }

  /** An `int` of the ATmega328: 16 bits, two's complement. */
  predicate IsInt16(n: int)
  {
    -32768 <= n < 32768
  }

  /** Storing a wider integer into a 16-bit `int`: the value congruent to `n`
      modulo 2^16 in -32768..32767. */
  function Wrap16(n: int): (r: int)
    ensures IsInt16(r)
    ensures (r - n) % 65536 == 0
    ensures IsInt16(n) ==> r == n
  {
    (n + 32768) % 65536 - 32768
  }

  /**
   * Scan `line` for an integer. Returns the number of digits seen, counted
   * in an 8-bit counter, and the new contents of the 16-bit `value`:
   * unchanged when the counter ends at 0 (no digits at all, a lone '-', or a
   * multiple of 256 digits); otherwise the decimal number formed by the first
   * eight digits, negative after a leading '-', wrapped to 16 bits.
   */
  method ReadInteger(line: seq<char>, value: int) returns (digits: int, newValue: int)
    requires IsInt16(value)
    ensures digits == DigitRun(Unsigned(line)) % 256
    ensures IsInt16(newValue)
    ensures digits == 0 ==> newValue == value
    ensures 0 < DigitRun(Unsigned(line)) < 256 ==> newValue == Wrap16(ScannedValue(line))
  {
    ghost var body := Unsigned(line);
    ghost var run := DigitRun(body);
    var pos := 0;
    var c := At(line, pos);
    pos := pos + 1;
    var isMinus := false;
    var count := 0;
    if c == '-' {
      isMinus := true;
      c := At(line, pos);
      pos := pos + 1;
    }
    ghost var start := pos - 1;
    assert start == |line| - |body| || (|line| == 0 && start == 0);
    var number := 0;
    ghost var k := 0;
    while IsDigit(c)
      invariant 0 <= k <= run
      invariant pos == start + k + 1
      invariant c == At(line, start + k)
      invariant count == k % 256
      invariant k < 256 ==> number == Decimal(body[..Min(k, MAX_DIGITS)])
      decreases |line| + 1 - pos
    {
      assert start + k < |line|;
      assert body[k] == c;
      if count < MAX_DIGITS {
        assert body[..k + 1][..k] == body[..k];
        number := 10 * number + (c as int - '0' as int);
      }
      count := (count + 1) % 256;
      k := k + 1;
      c := At(line, pos);
      pos := pos + 1;
    }
    assert k == run;
    if count > 0 {
      newValue := Wrap16(if isMinus then -number else number);
    } else {
      newValue := value;
    }
    digits := count;
  }

  // ---------------------------------------------------------------------
  // Round trip: scanning the decimal form of a number gives it back

  function Pow10(k: nat): nat
  {
    if k == 0 then 1 else 10 * Pow10(k - 1)
  }

  /** The decimal form of `n`, without leading zeros. */
  function Show(n: nat): (s: seq<char>)
    ensures |s| >= 1
    ensures forall i | 0 <= i < |s| :: IsDigit(s[i])
  {
    if n < 10 then ['0' + n as char] else Show(n / 10) + ['0' + (n % 10) as char]
  }

  lemma {:induction false} ShowDecimal(n: nat)
    ensures Decimal(Show(n)) == n
  {
    if n >= 10 {
      var s := Show(n);
      assert s[..|s| - 1] == Show(n / 10);
      ShowDecimal(n / 10);
    }
  }

  lemma {:induction false} ShowLength(n: nat, k: nat)
    requires k >= 1 && n < Pow10(k)
    ensures |Show(n)| <= k
  {
    if n >= 10 {
      ShowLength(n / 10, k - 1);
    }
  }

  /** Any number below 10^8, written in decimal (after a '-' if `negative`)
      and followed by something other than a digit, scans back as itself:
      the digit count is the length of its decimal form and the value is
      the number, negated after the '-'. */
  lemma ScanShown(n: nat, negative: bool, rest: seq<char>)
    requires n < Pow10(MAX_DIGITS)
    requires |rest| > 0 ==> !IsDigit(rest[0])
    ensures var line := (if negative then "-" else "") + Show(n) + rest;
      && DigitRun(Unsigned(line)) == |Show(n)| <= MAX_DIGITS
      && ScannedValue(line) == if negative then -(n as int) else n as int
  {
    ShowLength(n, MAX_DIGITS);
    ShowDecimal(n);
    ScanDigits(Show(n), negative, rest);
  }

  /** What `value` ends up holding after a scan of such a line: the number
      itself exactly when it fits the 16-bit `int`, and otherwise the number
      wrapped modulo 2^16. */
  lemma StoredShown(n: nat, negative: bool, rest: seq<char>)
    requires n < Pow10(MAX_DIGITS)
    requires |rest| > 0 ==> !IsDigit(rest[0])
    ensures var line := (if negative then "-" else "") + Show(n) + rest;
      var signed := if negative then -(n as int) else n as int;
      && 0 < DigitRun(Unsigned(line)) < 256
      && (IsInt16(signed) <==> Wrap16(ScannedValue(line)) == signed)
  {
    ScanShown(n, negative, rest);
  }

  /** Five digits can already leave the 16-bit range: "40000" is stored as
      -25536. */
  lemma FiveDigitsWrap()
    ensures DigitRun(Unsigned("40000")) == 5
    ensures Wrap16(ScannedValue("40000")) == -25536
  {
    ScanDigits("40000", false, "");
    assert "40000" + "" == "40000";
    assert Decimal("40000") == 40000 by {
      assert "40000"[..4] == "4000" && "4000"[..3] == "400" && "400"[..2] == "40" && "40"[..1] == "4" && "4"[..0] == "";
    }
  }

  /** A run of one to eight digits, after an optional '-' and followed by a
      non-digit, scans as its decimal value. */
  lemma ScanDigits(s: seq<char>, negative: bool, rest: seq<char>)
    requires 1 <= |s| <= MAX_DIGITS && forall i | 0 <= i < |s| :: IsDigit(s[i])
    requires |rest| > 0 ==> !IsDigit(rest[0])
    ensures var line := (if negative then "-" else "") + s + rest;
      && DigitRun(Unsigned(line)) == |s|
      && ScannedValue(line) == if negative then -(Decimal(s) as int) else Decimal(s) as int
  {
    var body := s + rest;
    var sign: seq<char> := if negative then "-" else "";
    var line := sign + s + rest;
    assert line == sign + body;
    if negative {
      assert IsNegative(line) && line[1..] == body;
    } else {
      assert sign == [];
      assert line == body;
      assert line[0] == s[0];
    }
    assert Unsigned(line) == body;
    RunOfDigitsThenOther(s, rest);
    assert body[..|s|] == s;
  }

  lemma {:induction false} RunOfDigitsThenOther(s: seq<char>, rest: seq<char>)
    requires forall i | 0 <= i < |s| :: IsDigit(s[i])
    requires |rest| > 0 ==> !IsDigit(rest[0])
    ensures DigitRun(s + rest) == |s|
  {
    if |s| > 0 {
      assert (s + rest)[1..] == s[1..] + rest;
      RunOfDigitsThenOther(s[1..], rest);
    }
  }
}

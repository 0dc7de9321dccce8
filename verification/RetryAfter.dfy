/** The Retry-After header in delta-seconds form (section 10.2.3 of RFC 9110). */
module RetryAfter {
  import opened Base

  const MAX_RETRY_AFTER: int := 3600

  predicate IsSpace(c: char) {
    c in {' ', '\t', '\n', '\r', '\U{0B}', '\U{0C}', '\U{85}', '\U{A0}'}
  }

  function TrimSpace(s: string): string {
    if s != [] && IsSpace(s[0]) then TrimSpace(s[1..])
    else if s != [] && IsSpace(s[|s| - 1]) then TrimSpace(s[..|s| - 1])
    else s
  }

  predicate IsDigit(c: char) {
    '0' <= c <= '9'
  }

  function DigitValue(c: char): (v: int)
    requires IsDigit(c)
    ensures 0 <= v <= 9
  {
    c as int - '0' as int
  }

  function Digits(s: string): (value: int)
    requires forall c <- s :: IsDigit(c)
    ensures value >= 0
  {
    if s == [] then 0 else assert IsDigit(s[|s| - 1]); 10 * Digits(s[..|s| - 1]) + DigitValue(s[|s| - 1])
  }

  /** `strconv.Atoi`: an optional sign, at least one digit, and a value that fits. */
  function Atoi(s: string): (value: Option<int>)
    ensures value.Some? ==> -0x8000_0000_0000_0000 <= value.value < 0x8000_0000_0000_0000
  {
    var unsigned := if s != [] && (s[0] == '+' || s[0] == '-') then s[1..] else s;
    if unsigned == [] || exists c <- unsigned :: !IsDigit(c) then None
    else
      var value: int := if s[0] == '-' then -Digits(unsigned) else Digits(unsigned);
      if -0x8000_0000_0000_0000 <= value < 0x8000_0000_0000_0000 then Some(value) else None
  }

  function RetryAfterSeconds(header: Option<string>): (seconds: int)
    ensures 0 <= seconds <= MAX_RETRY_AFTER
  {
    match header
    case None => 0
    case Some(value) =>
      match Atoi(TrimSpace(value))
      case None => 0
      case Some(n) => if n <= 0 then 0 else if n > MAX_RETRY_AFTER then MAX_RETRY_AFTER else n
  }

  /** The decimal rendering of a positive number. */
  function Decimal(n: nat): string {
    if n == 0 then "" else Decimal(n / 10) + [('0' as int + n % 10) as char]
  }

  lemma {:induction false} DecimalDenotes(n: nat)
    ensures forall c <- Decimal(n) :: IsDigit(c)
    ensures Digits(Decimal(n)) == n
    ensures n > 0 ==> Decimal(n) != []
  {
    if n > 0 {
      DecimalDenotes(n / 10);
      assert Decimal(n)[..|Decimal(n)| - 1] == Decimal(n / 10);
    }
  }

  lemma NumberIsRead(n: nat)
    requires n > 0
    ensures var s := Decimal(n);
            && s != [] && !IsSpace(s[0]) && !IsSpace(s[|s| - 1])
            && Atoi(s) == if n < 0x8000_0000_0000_0000 then Some(n) else None
  {
    DecimalDenotes(n);
    var s := Decimal(n);
    assert s[0] in s && s[|s| - 1] in s;
    assert IsDigit(s[0]) && IsDigit(s[|s| - 1]);
  }

  predicate IsBlank(s: string) {
    forall c <- s :: IsSpace(c)
  }

  lemma {:induction false} TrimDropsBlanks(before: string, s: string, after: string)
    requires IsBlank(before) && IsBlank(after) && s != [] && !IsSpace(s[0]) && !IsSpace(s[|s| - 1])
    ensures TrimSpace(before + s + after) == s
    decreases |before| + |after|
  {
    var padded := before + s + after;
    if before != [] {
      assert before[0] in before && padded[0] == before[0];
      assert padded[1..] == before[1..] + s + after;
      TrimDropsBlanks(before[1..], s, after);
    } else if after != [] {
      var n := |after| - 1;
      assert after[n] in after && padded[|padded| - 1] == after[n] && padded[0] == s[0];
      assert padded[..|padded| - 1] == before + s + after[..n];
      TrimDropsBlanks(before, s, after[..n]);
    } else {
      assert padded == s;
    }
  }

  lemma SignedNumberIsRead(n: nat, sign: char)
    requires n > 0 && sign in {'+', '-'}
    ensures var s, value := [sign] + Decimal(n), if sign == '-' then 0 - n else n;
            && !IsSpace(s[0]) && !IsSpace(s[|s| - 1])
            && Atoi(s) == if -0x8000_0000_0000_0000 <= value < 0x8000_0000_0000_0000 then Some(value) else None
  {
    var s, digits := [sign] + Decimal(n), Decimal(n);
    DecimalDenotes(n);
    assert s[0] == sign && s[1..] == digits;
    assert digits[|digits| - 1] in digits && s[|s| - 1] == digits[|digits| - 1];
  }

  /** A delta-seconds value, blanks around it or not, is honoured up to an hour; one too large for the machine is
      ignored, not capped, and so is a negative one. */
  lemma HonoursDeltaSeconds(n: nat, sign: string, before: string, after: string)
    requires n > 0 && sign in {"", "+", "-"} && IsBlank(before) && IsBlank(after)
    ensures RetryAfterSeconds(Some(before + (sign + Decimal(n)) + after)) ==
            if sign == "-" || n >= 0x8000_0000_0000_0000 then 0 else if n > 3600 then 3600 else n
  {
    if sign == "" {
      NumberIsRead(n);
      assert sign + Decimal(n) == Decimal(n);
    } else {
      SignedNumberIsRead(n, sign[0]);
      assert sign == [sign[0]];
    }
    TrimDropsBlanks(before, sign + Decimal(n), after);
  }

  /** A date, which has letters in it, is worth nothing, and so is no header. */
  lemma IgnoresDates(value: string, letter: char)
    requires letter in value && !IsDigit(letter) && !IsSpace(letter) && letter !in {'+', '-'}
    ensures RetryAfterSeconds(Some(value)) == 0 && RetryAfterSeconds(None) == 0
  {
    TrimKeeps(value, letter);
    var s := TrimSpace(value);
    var unsigned := if s[0] == '+' || s[0] == '-' then s[1..] else s;
    assert letter in unsigned;
  }

  lemma {:induction false} TrimKeeps(s: string, c: char)
    requires c in s && !IsSpace(c)
    ensures c in TrimSpace(s)
    decreases |s|
  {
    if IsSpace(s[0]) {
      TrimKeeps(s[1..], c);
    } else if IsSpace(s[|s| - 1]) {
      TrimKeeps(s[..|s| - 1], c);
    }
  }
}

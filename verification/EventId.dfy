/**
 The decimal event id of the audit stream: printing an `i64` row id, and reading the
 `Last-Event-ID` header back into a cursor.
 */
module EventId {
  import opened Options
  import opened Text

  const I64_MIN: int := -0x8000_0000_0000_0000
  const I64_MAX: int := 0x7FFF_FFFF_FFFF_FFFF

  predicate IsI64(n: int) {
    I64_MIN <= n <= I64_MAX
  }

  function PrintNat(n: nat): string {
    if n < 10 then [('0' as int + n) as char] else PrintNat(n / 10) + [('0' as int + n % 10) as char]
  }

  function PrintI64(n: int): string {
    if n < 0 then "-" + PrintNat(-n) else PrintNat(n)
  }

  function DigitsValue(s: string): nat
    requires AllDigits(s)
  {
    if s == "" then 0 else 10 * DigitsValue(s[..|s| - 1]) + (s[|s| - 1] as int - '0' as int)
  }

  /** `str::parse::<i64>`: an optional sign, at least one digit, and no overflow. */
  function ParseI64(s: string): Option<int> {
    var signed := s != "" && (s[0] == '-' || s[0] == '+');
    var digits := if signed then s[1..] else s;
    if digits == "" || !AllDigits(digits) then None
    else
      var magnitude: int := DigitsValue(digits);
      var value := if signed && s[0] == '-' then -magnitude else magnitude;
      if IsI64(value) then Some(value) else None
  }

  /** The stream's starting cursor: a missing or unreadable header starts from zero. */
  function ResumeCursor(header: Option<string>): int {
    if header.None? then 0
    else
      match ParseI64(header.value)
      case Some(id) => id
      case None => 0
  }

  lemma {:induction false} PrintNatReads(n: nat)
    ensures PrintNat(n) != "" && AllDigits(PrintNat(n)) && DigitsValue(PrintNat(n)) == n
  {
    if n >= 10 {
      PrintNatReads(n / 10);
      var s := PrintNat(n);
      assert s[..|s| - 1] == PrintNat(n / 10);
    }
  }

  /** Ids are printed in plain decimal, without leading zeros. */
  lemma {:induction false} PrintsWithoutZeros(n: nat)
    ensures PrintNat(0) == "0" && (n > 0 ==> PrintNat(n) != "" && PrintNat(n)[0] != '0')
  {
    if n >= 10 {
      PrintsWithoutZeros(n / 10);
    }
  }

  /** Every row id survives the trip through the event id and the reconnect header. */
  lemma {:induction false} EventIdRoundTrip(id: int)
    requires IsI64(id)
    ensures ResumeCursor(Some(PrintI64(id))) == id
    ensures PrintI64(id) != ""
  {
    PrintNatReads(if id < 0 then -id else id);
    if id < 0 {
      assert PrintI64(id)[1..] == PrintNat(-id);
    } else {
      assert IsDigit(PrintI64(id)[0]);
    }
  }

  // ---------------------------------------------------------------------------------------
  // Every header text
  // ---------------------------------------------------------------------------------------

  predicate AllZeros(s: string) {
    forall i :: 0 <= i < |s| ==> s[i] == '0'
  }

  /** The text is an optional sign, any zeros, and a printed number. */
  ghost predicate Spells(s: string, sign: string, zeros: string, n: nat) {
    sign in {"", "+", "-"} && AllZeros(zeros) && s == sign + zeros + PrintNat(n)
  }

  ghost function Signed(sign: string, n: nat): int {
    if sign == "-" then -(n as int) else n
  }

  lemma {:induction false} DigitsArePadded(s: string) returns (zeros: string)
    requires s != "" && AllDigits(s)
    ensures AllZeros(zeros) && s == zeros + PrintNat(DigitsValue(s))
  {
    var init, last := s[..|s| - 1], s[|s| - 1];
    assert s == init + [last];
    if init == "" {
      zeros := "";
    } else {
      zeros := DigitsArePadded(init);
      if DigitsValue(init) == 0 {
        zeros := zeros + "0";
      }
    }
  }

  lemma {:induction false} PaddingIsFree(zeros: string, s: string)
    requires AllZeros(zeros) && AllDigits(s)
    ensures AllDigits(zeros + s) && DigitsValue(zeros + s) == DigitsValue(s)
    decreases |s|, |zeros|
  {
    if s != "" {
      PaddingIsFree(zeros, s[..|s| - 1]);
      assert (zeros + s)[..|zeros + s| - 1] == zeros + s[..|s| - 1];
    } else if zeros != "" {
      PaddingIsFree(zeros[..|zeros| - 1], "");
      assert zeros + s == zeros && zeros[..|zeros| - 1] + "" == zeros[..|zeros| - 1];
    }
  }

  lemma {:induction false} SignedParses(s: string, sign: string, digits: string)
    requires sign in {"", "+", "-"} && digits != "" && AllDigits(digits) && s == sign + digits
    ensures var value := Signed(sign, DigitsValue(digits));
            ParseI64(s) == if IsI64(value) then Some(value) else None
  {
    assert IsDigit(digits[0]);
    if sign == "" {
      assert s == digits;
    } else {
      assert s[0] == sign[0] && s[1..] == digits;
    }
  }

  lemma {:induction false} SpelledParses(s: string, sign: string, zeros: string, n: nat)
    requires Spells(s, sign, zeros, n)
    ensures ParseI64(s) == if IsI64(Signed(sign, n)) then Some(Signed(sign, n)) else None
  {
    PrintNatReads(n);
    PaddingIsFree(zeros, PrintNat(n));
    var digits := zeros + PrintNat(n);
    assert s == sign + digits;
    SignedParses(s, sign, digits);
  }

  /** A number is read exactly from its spellings, and only when it fits. */
  lemma {:induction false} ParsesSpellings(s: string, value: int)
    ensures ParseI64(s) == Some(value)
            <==> -0x8000_0000_0000_0000 <= value <= 0x7FFF_FFFF_FFFF_FFFF && SpellsValue(s, value)
  {
    if ParseI64(s) == Some(value) {
      ParsedIsSpelled(s);
    }
    if SpellsValue(s, value) {
      var sign: string, zeros: string, n: nat :| Spells(s, sign, zeros, n) && Signed(sign, n) == value;
      SpelledParses(s, sign, zeros, n);
    }
  }

  ghost predicate SpellsValue(s: string, value: int) {
    exists sign: string, zeros: string, n: nat :: Spells(s, sign, zeros, n) && Signed(sign, n) == value
  }

  lemma {:induction false} ParsedIsSpelled(s: string)
    requires ParseI64(s).Some?
    ensures IsI64(ParseI64(s).value) && SpellsValue(s, ParseI64(s).value)
  {
    var sign, digits := SignAndDigits(s);
    SignedParses(s, sign, digits);
    var zeros := DigitsArePadded(digits);
    var n := DigitsValue(digits);
    Pads(s, sign, zeros, digits, n);
    assert Spells(s, sign, zeros, n);
  }

  lemma {:induction false} SignAndDigits(s: string) returns (sign: string, digits: string)
    requires ParseI64(s).Some?
    ensures sign in {"", "+", "-"} && digits != "" && AllDigits(digits) && s == sign + digits
  {
    if s != "" && (s[0] == '-' || s[0] == '+') {
      sign, digits := [s[0]], s[1..];
      assert s == [s[0]] + s[1..];
    } else {
      sign, digits := "", s;
      assert s == "" + s;
    }
  }

  lemma {:induction false} Pads(s: string, sign: string, zeros: string, digits: string, n: nat)
    requires s == sign + digits && digits == zeros + PrintNat(n)
    ensures s == sign + zeros + PrintNat(n)
  {
  }

  /** A header that spells no `i64`, or none at all, starts the stream from the beginning. */
  lemma {:induction false} UnreadableStartsOver(s: string)
    ensures ResumeCursor(None) == 0
    ensures (forall value: int :: ParseI64(s) != Some(value)) ==> ResumeCursor(Some(s)) == 0
    ensures forall value: int :: ParseI64(s) == Some(value) ==> ResumeCursor(Some(s)) == value
  {
    if ParseI64(s).Some? {
      assert ParseI64(s) == Some(ParseI64(s).value);
    }
  }
}

/** The stand-alone validators of the server: adult age, CPF check digits,
    CNH format, ride scheduling and seat count. Every reading of the clock
    (`new Date()`) becomes an explicit parameter (`today`, `now`), so each
    rule is a total function of its inputs. */
module Validators {
  import opened Wrappers

  /** The outcome of a validator that reports a reason: `{ valid: true }` or
      `{ valid: false, error }`. */
  datatype Validation = Valid | Invalid(error: string)

  // ---------------------------------------------------------------------
  // Adult age
  // ---------------------------------------------------------------------

  /** A date as the year, month and day-of-month getters of a Date return it. */
  datatype CalendarDate = CalendarDate(year: int, month: int, day: int)

  /** Lexicographic order on (year, month, day). */
  predicate OnOrBefore(a: CalendarDate, b: CalendarDate) {
    || a.year < b.year
    || (a.year == b.year && a.month < b.month)
    || (a.year == b.year && a.month == b.month && a.day <= b.day)
  }

  const ADULT_AGE: int := 18

  function EighteenthBirthday(birth: CalendarDate): CalendarDate {
    CalendarDate(birth.year + ADULT_AGE, birth.month, birth.day)
  }

  /** `isAgeValid`. `birth` is None when the birth date does not parse: every
      getter then yields NaN and every comparison with it is false. */
  function IsAgeValid(birth: Option<CalendarDate>, today: CalendarDate): (r: bool)
    ensures birth.None? ==> !r
    ensures birth.Some? ==> (r <==> OnOrBefore(EighteenthBirthday(birth.value), today))
  {
    match birth
    case None => false
    case Some(b) =>
      var age := today.year - b.year;
      var monthDiff := today.month - b.month;
      if monthDiff < 0 || (monthDiff == 0 && today.day < b.day) then
        age - 1 >= ADULT_AGE
      else
        age >= ADULT_AGE
  }

  /** The rule flips exactly at the eighteenth birthday: valid on it, invalid
      on the day before it within the same month. */
  lemma AgeValidFromEighteenthBirthday(birth: CalendarDate)
    ensures IsAgeValid(Some(birth), EighteenthBirthday(birth))
    ensures !IsAgeValid(Some(birth), CalendarDate(birth.year + ADULT_AGE, birth.month, birth.day - 1))
  {
  }

  /** Whoever is old enough, everyone born no later is old enough too. */
  lemma AgeValidMonotone(older: CalendarDate, younger: CalendarDate, today: CalendarDate)
    requires OnOrBefore(older, younger)
    requires IsAgeValid(Some(younger), today)
    ensures IsAgeValid(Some(older), today)
  {
    assert OnOrBefore(EighteenthBirthday(older), EighteenthBirthday(younger));
  }

  // ---------------------------------------------------------------------
  // Digits
  // ---------------------------------------------------------------------

  /** `\d` and `[0-9]` without the unicode flag: the ten ASCII digits. */
  predicate IsAsciiDigit(c: char) {
    '0' <= c <= '9'
  }

  predicate AllDigits(s: string) {
    forall i :: 0 <= i < |s| ==> IsAsciiDigit(s[i])
  }

  /** `parseInt` of a one-character digit string. */
  function DigitValue(c: char): (v: int)
    requires IsAsciiDigit(c)
    ensures 0 <= v <= 9
  {
    c as int - '0' as int
  }

  function DigitValues(s: string): (d: seq<int>)
    requires AllDigits(s)
    ensures |d| == |s|
    ensures forall i :: 0 <= i < |s| ==> d[i] == DigitValue(s[i])
  {
    seq(|s|, i requires 0 <= i < |s| => DigitValue(s[i]))
  }

  /** `replace(/\D+/g, '')`: the digits of `s`, in order. */
  function StripNonDigits(s: string): (r: string)
    ensures AllDigits(r)
    ensures |r| <= |s|
  {
    if s == [] then []
    else if IsAsciiDigit(s[0]) then [s[0]] + StripNonDigits(s[1..])
    else StripNonDigits(s[1..])
  }

  /** Stripping a string that is all digits changes nothing. */
  lemma {:induction false} StripKeepsDigitString(s: string)
    requires AllDigits(s)
    ensures StripNonDigits(s) == s
  {
    if s != [] {
      assert AllDigits(s[1..]) by {
        forall i | 0 <= i < |s[1..]| ensures IsAsciiDigit(s[1..][i]) {
          assert s[1..][i] == s[i + 1];
        }
      }
      StripKeepsDigitString(s[1..]);
      assert s == [s[0]] + s[1..];
    }
  }

  /** Stripping distributes over concatenation. */
  lemma {:induction false} StripConcat(a: string, b: string)
    ensures StripNonDigits(a + b) == StripNonDigits(a) + StripNonDigits(b)
  {
    if a != [] {
      assert (a + b)[0] == a[0];
      assert (a + b)[1..] == a[1..] + b;
      StripConcat(a[1..], b);
    } else {
      assert a + b == b;
    }
  }

  /** A separator between two pieces disappears when stripping. */
  lemma StripSkipsSeparator(a: string, sep: char, b: string)
    requires !IsAsciiDigit(sep)
    ensures StripNonDigits(a + [sep] + b) == StripNonDigits(a) + StripNonDigits(b)
  {
    StripConcat(a + [sep], b);
    StripConcat(a, [sep]);
    assert [sep][1..] == [];
  }

  lemma SliceAllDigits(s: string, i: nat, j: nat)
    requires AllDigits(s) && i <= j <= |s|
    ensures AllDigits(s[i..j])
  {
    forall k | 0 <= k < j - i ensures IsAsciiDigit(s[i..j][k]) {
      assert s[i..j][k] == s[i + k];
    }
  }

  /** A string is left unchanged by stripping exactly when it is all digits. */
  lemma StripFixedPoints(s: string)
    ensures StripNonDigits(s) == s <==> AllDigits(s)
  {
    if AllDigits(s) {
      StripKeepsDigitString(s);
    }
  }

  lemma StripIdempotent(s: string)
    ensures StripNonDigits(StripNonDigits(s)) == StripNonDigits(s)
  {
    StripKeepsDigitString(StripNonDigits(s));
  }

  // ---------------------------------------------------------------------
  // CPF
  // ---------------------------------------------------------------------

  const CPF_LENGTH: nat := 11

  /** `/^(\d)\1{10}$/`: eleven copies of one digit. */
  predicate OneDigitRepeated(s: string) {
    |s| == CPF_LENGTH && IsAsciiDigit(s[0]) && forall i :: 0 <= i < |s| ==> s[i] == s[0]
  }

  /** Sum of d[i-1] * (top - i) for i = 1 .. n. */
  function WeightedSum(d: seq<int>, n: nat, top: int): int
    requires n <= |d|
  {
    if n == 0 then 0 else WeightedSum(d, n - 1, top) + d[n - 1] * (top - n)
  }

  /** The two sums of the CPF rule written out term by term. */
  lemma WeightedSumsExpanded(d: seq<int>)
    requires |d| >= 10
    ensures WeightedSum(d, 9, 11) ==
              10 * d[0] + 9 * d[1] + 8 * d[2] + 7 * d[3] + 6 * d[4] + 5 * d[5] + 4 * d[6] + 3 * d[7] + 2 * d[8]
    ensures WeightedSum(d, 10, 12) ==
              11 * d[0] + 10 * d[1] + 9 * d[2] + 8 * d[3] + 7 * d[4] + 6 * d[5] + 5 * d[6] + 4 * d[7] + 3 * d[8] + 2 * d[9]
  {
    assert WeightedSum(d, 1, 11) == WeightedSum(d, 0, 11) + d[0] * 10;
    assert WeightedSum(d, 2, 11) == WeightedSum(d, 1, 11) + d[1] * 9;
    assert WeightedSum(d, 3, 11) == WeightedSum(d, 2, 11) + d[2] * 8;
    assert WeightedSum(d, 4, 11) == WeightedSum(d, 3, 11) + d[3] * 7;
    assert WeightedSum(d, 5, 11) == WeightedSum(d, 4, 11) + d[4] * 6;
    assert WeightedSum(d, 6, 11) == WeightedSum(d, 5, 11) + d[5] * 5;
    assert WeightedSum(d, 7, 11) == WeightedSum(d, 6, 11) + d[6] * 4;
    assert WeightedSum(d, 8, 11) == WeightedSum(d, 7, 11) + d[7] * 3;
    assert WeightedSum(d, 9, 11) == WeightedSum(d, 8, 11) + d[8] * 2;
    assert WeightedSum(d, 1, 12) == WeightedSum(d, 0, 12) + d[0] * 11;
    assert WeightedSum(d, 2, 12) == WeightedSum(d, 1, 12) + d[1] * 10;
    assert WeightedSum(d, 3, 12) == WeightedSum(d, 2, 12) + d[2] * 9;
    assert WeightedSum(d, 4, 12) == WeightedSum(d, 3, 12) + d[3] * 8;
    assert WeightedSum(d, 5, 12) == WeightedSum(d, 4, 12) + d[4] * 7;
    assert WeightedSum(d, 6, 12) == WeightedSum(d, 5, 12) + d[5] * 6;
    assert WeightedSum(d, 7, 12) == WeightedSum(d, 6, 12) + d[6] * 5;
    assert WeightedSum(d, 8, 12) == WeightedSum(d, 7, 12) + d[7] * 4;
    assert WeightedSum(d, 9, 12) == WeightedSum(d, 8, 12) + d[8] * 3;
    assert WeightedSum(d, 10, 12) == WeightedSum(d, 9, 12) + d[9] * 2;
  }

  /** The Receita Federal check digit of a weighted sum: ten times the sum
      modulo 11, with 10 read as 0. */
  function CheckDigit(sum: int): (r: int)
    ensures 0 <= r <= 9
    ensures r == (sum * 10) % 11 || ((sum * 10) % 11 == 10 && r == 0)
  {
    var resto := (sum * 10) % 11;
    if resto == 10 || resto == 11 then 0 else resto
  }

  /** The CPF rule on the digit values: eleven digits, not all equal, the
      tenth the check digit of the first nine weighted 10..2, the eleventh
      the check digit of the first ten weighted 11..2. */
  predicate CpfDigitsValid(d: seq<int>) {
    && |d| == CPF_LENGTH
    && (exists i :: 0 <= i < |d| && d[i] != d[0])
    && d[9] == CheckDigit(WeightedSum(d, 9, 11))
    && d[10] == CheckDigit(WeightedSum(d, 10, 12))
  }

  /** The CPF rule on the argument of `isCPFValid`; `cpf` is None when the
      argument is missing or not a string. */
  predicate CpfAccepted(cpf: Option<string>) {
    cpf.Some? && cpf.value != "" && CpfDigitsValid(DigitValues(StripNonDigits(cpf.value)))
  }

  /** `isCPFValid`, step by step: the early rejections, then the two
      weighted-sum loops and their check-digit comparisons. */
  method CheckCPF(cpf: Option<string>) returns (ok: bool)
    ensures ok <==> CpfAccepted(cpf)
  {
    if cpf.None? || cpf.value == "" {
      return false;
    }
    var s := StripNonDigits(cpf.value);
    var d := DigitValues(s);
    if |s| != CPF_LENGTH || OneDigitRepeated(s) {
      if |s| == CPF_LENGTH {
        forall i | 0 <= i < |d| ensures d[i] == d[0] {
          assert s[i] == s[0];
        }
      }
      return false;
    }
    assert exists i :: 0 <= i < |d| && d[i] != d[0] by {
      var i :| 0 <= i < |s| && s[i] != s[0];
      assert d[i] != d[0];
    }

    var soma := 0;
    var i := 1;
    while i <= 9
      invariant 1 <= i <= 10
      invariant soma == WeightedSum(d, i - 1, 11)
    {
      soma := soma + DigitValue(s[i - 1]) * (11 - i);
      i := i + 1;
    }
    var resto := (soma * 10) % 11;
    if resto == 10 || resto == 11 {
      resto := 0;
    }
    if resto != DigitValue(s[9]) {
      return false;
    }

    soma := 0;
    i := 1;
    while i <= 10
      invariant 1 <= i <= 11
      invariant soma == WeightedSum(d, i - 1, 12)
    {
      soma := soma + DigitValue(s[i - 1]) * (12 - i);
      i := i + 1;
    }
    resto := (soma * 10) % 11;
    if resto == 10 || resto == 11 {
      resto := 0;
    }
    if resto != DigitValue(s[10]) {
      return false;
    }
    return true;
  }

  /** Only the digits of the argument matter: punctuation is ignored. */
  lemma CpfIgnoresPunctuation(s: string)
    ensures CpfAccepted(Some(s)) <==> CpfAccepted(Some(StripNonDigits(s)))
  {
    StripIdempotent(s);
  }

  /** An accepted CPF has exactly eleven digits, not all the same. */
  lemma CpfAcceptedShape(cpf: Option<string>)
    requires CpfAccepted(cpf)
    ensures |StripNonDigits(cpf.value)| == CPF_LENGTH
    ensures !OneDigitRepeated(StripNonDigits(cpf.value))
  {
    var s := StripNonDigits(cpf.value);
    var d := DigitValues(s);
    var i :| 0 <= i < |d| && d[i] != d[0];
    assert s[i] != s[0];
  }

  /** Eleven copies of one digit pass both check-digit comparisons, so it is
      the repetition test alone that rejects them. */
  lemma RepeatedDigitPassesCheckDigits(c: char)
    requires IsAsciiDigit(c)
    ensures var d := DigitValues(seq(CPF_LENGTH, _ => c));
            d[9] == CheckDigit(WeightedSum(d, 9, 11)) && d[10] == CheckDigit(WeightedSum(d, 10, 12))
    ensures !CpfAccepted(Some(seq(CPF_LENGTH, _ => c)))
  {
    var s := seq(CPF_LENGTH, _ => c);
    var d := DigitValues(s);
    var v := DigitValue(c);
    assert d == [v, v, v, v, v, v, v, v, v, v, v];
    StripKeepsDigitString(s);
    WeightedSumsExpanded(d);
    assert WeightedSum(d, 9, 11) == 54 * v;
    assert WeightedSum(d, 10, 12) == 65 * v;
    RepeatedCheckDigit(v);
  }

  /** Both weightings of a repeated digit give that digit back as the check
      digit: 540v and 650v leave remainder v modulo 11. */
  lemma RepeatedCheckDigit(v: int)
    requires 0 <= v <= 9
    ensures CheckDigit(54 * v) == v && CheckDigit(65 * v) == v
  {
    assert 54 * v * 10 == 11 * (49 * v) + v;
    assert 65 * v * 10 == 11 * (59 * v) + v;
  }

  /** A worked example: 12345678909 is a valid CPF. */
  lemma CpfExample()
    ensures CpfAccepted(Some("12345678909"))
  {
    var s := "12345678909";
    var d := DigitValues(s);
    assert d == [1, 2, 3, 4, 5, 6, 7, 8, 9, 0, 9];
    WeightedSumsExpanded(d);
    assert CpfDigitsValid(d) by { assert d[1] != d[0]; }
    StripKeepsDigitString(s);
    assert DigitValues(StripNonDigits(s)) == d;
  }

  /** A CPF in its usual written form, ddd.ddd.ddd-dd. */
  function FormatCpf(s: string): string
    requires |s| == CPF_LENGTH
  {
    s[..3] + ['.'] + s[3..6] + ['.'] + s[6..9] + ['-'] + s[9..]
  }

  /** The written form of an eleven-digit string strips back to it. */
  lemma FormattedCpfStrips(s: string)
    requires |s| == CPF_LENGTH && AllDigits(s)
    ensures StripNonDigits(FormatCpf(s)) == s
  {
    var a, b, c, d := s[..3], s[3..6], s[6..9], s[9..];
    SliceAllDigits(s, 0, 3);
    SliceAllDigits(s, 3, 6);
    SliceAllDigits(s, 6, 9);
    SliceAllDigits(s, 9, 11);
    StripKeepsDigitString(a);
    StripKeepsDigitString(b);
    StripKeepsDigitString(c);
    StripKeepsDigitString(d);
    StripSkipsSeparator(a + ['.'] + b + ['.'] + c, '-', d);
    StripSkipsSeparator(a + ['.'] + b, '.', c);
    StripSkipsSeparator(a, '.', b);
    assert a + b + c + d == s;
  }

  /** The written form gets the same verdict as the bare digits. */
  lemma FormattedCpfSameVerdict(s: string)
    requires |s| == CPF_LENGTH && AllDigits(s)
    ensures CpfAccepted(Some(FormatCpf(s))) <==> CpfAccepted(Some(s))
  {
    FormattedCpfStrips(s);
    StripKeepsDigitString(s);
  }

  /** Changing the last check digit makes it invalid: the first check digit
      still matches, and it is the second comparison that fails. */
  lemma CpfWrongCheckDigitExample()
    ensures var e := DigitValues("12345678900");
            && e[9] == CheckDigit(WeightedSum(e, 9, 11))
            && e[10] != CheckDigit(WeightedSum(e, 10, 12))
    ensures !CpfAccepted(Some("12345678900"))
  {
    var t := "12345678900";
    var e := DigitValues(t);
    assert e == [1, 2, 3, 4, 5, 6, 7, 8, 9, 0, 0];
    SecondCheckDigitFails(e);
    StripKeepsDigitString(t);
    assert DigitValues(StripNonDigits(t)) == e;
  }

  /** The digit values of 12345678900: the weighted sums are 210 and 255,
      whose check digits are 0 and 9. */
  lemma SecondCheckDigitFails(e: seq<int>)
    requires e == [1, 2, 3, 4, 5, 6, 7, 8, 9, 0, 0]
    ensures e[9] == CheckDigit(WeightedSum(e, 9, 11))
    ensures e[10] != CheckDigit(WeightedSum(e, 10, 12))
    ensures !CpfDigitsValid(e)
  {
    WeightedSumsExpanded(e);
    assert WeightedSum(e, 9, 11) == 210;
    assert WeightedSum(e, 10, 12) == 255;
    assert CheckDigit(210) == 0 && CheckDigit(255) == 9;
  }

  // ---------------------------------------------------------------------
  // CNH
  // ---------------------------------------------------------------------

  const CNH_LENGTH: nat := 11

  /** `/^[0-9]{n}$/`, matched one character at a time. */
  predicate MatchesDigitRun(s: string, n: nat) {
    if n == 0 then s == []
    else s != [] && IsAsciiDigit(s[0]) && MatchesDigitRun(s[1..], n - 1)
  }

  lemma {:induction false} DigitRunIff(s: string, n: nat)
    ensures MatchesDigitRun(s, n) <==> |s| == n && AllDigits(s)
  {
    if n > 0 && s != [] {
      DigitRunIff(s[1..], n - 1);
      if AllDigits(s) {
        assert AllDigits(s[1..]) by {
          forall i | 0 <= i < |s[1..]| ensures IsAsciiDigit(s[1..][i]) {
            assert s[1..][i] == s[i + 1];
          }
        }
      }
      if IsAsciiDigit(s[0]) && AllDigits(s[1..]) {
        forall i | 0 <= i < |s| ensures IsAsciiDigit(s[i]) {
          if i > 0 {
            assert s[i] == s[1..][i - 1];
          }
        }
      }
    }
  }

  /** `isCNHValid`: the anchored eleven-digit pattern, tested on the
      argument as given. */
  predicate IsCNHValid(cnh: string)
    ensures IsCNHValid(cnh) <==> |cnh| == CNH_LENGTH && AllDigits(cnh)
  {
    DigitRunIff(cnh, CNH_LENGTH);
    MatchesDigitRun(cnh, CNH_LENGTH)
  }

  /** A CNH is accepted exactly when it is eleven ASCII digits; nothing is
      stripped first, so a punctuated number is refused even when its digits
      alone would pass. */
  lemma CnhIff(cnh: string)
    ensures IsCNHValid(cnh) <==> |cnh| == CNH_LENGTH && AllDigits(cnh)
    ensures IsCNHValid(cnh) ==> StripNonDigits(cnh) == cnh
  {
    DigitRunIff(cnh, CNH_LENGTH);
    StripFixedPoints(cnh);
  }

  lemma CnhPunctuatedRejected(a: string, sep: char, b: string)
    requires AllDigits(a) && AllDigits(b) && |a| + |b| == CNH_LENGTH && !IsAsciiDigit(sep)
    ensures !IsCNHValid(a + [sep] + b)
    ensures IsCNHValid(StripNonDigits(a + [sep] + b))
  {
    var p := a + [sep] + b;
    CnhIff(p);
    StripSkipsSeparator(a, sep, b);
    StripKeepsDigitString(a);
    StripKeepsDigitString(b);
    CnhIff(a + b);
  }

  // ---------------------------------------------------------------------
  // Ride date and time
  // ---------------------------------------------------------------------

  /** Instants are milliseconds on the local clock. */
  const MS_PER_MINUTE: int := 60000
  const MINUTES_PER_DAY: int := 1440
  const MS_PER_DAY: int := MINUTES_PER_DAY * MS_PER_MINUTE
  const MINIMUM_LEAD_MINUTES: int := 30

  const INVALID_DATE_TIME: string := "Data ou hora inválida."
  const RIDE_IN_PAST: string := "A viagem não pode estar no passado."
  const RIDE_TOO_SOON: string := "A viagem deve iniciar no mínimo 30 minutos após o horário atual."

  /** The calendar day an instant falls on (division rounds down). */
  function DayOf(t: int): int {
    t / MS_PER_DAY
  }

  /** `setHours(0, 0, 0, 0)`: midnight at the start of the day of `t`. */
  function StartOfDay(t: int): int {
    DayOf(t) * MS_PER_DAY
  }

  /** The instant `minute` minutes into day `day`. */
  function At(day: int, minute: int): int {
    day * MS_PER_DAY + minute * MS_PER_MINUTE
  }

  /** `isRideDateTimeValid`. `ride` is the parsed `date`T`time`, None when it
      does not parse; `now` is the current instant. */
  function IsRideDateTimeValid(ride: Option<int>, now: int): (r: Validation)
    ensures r.Invalid? ==> r.error in {INVALID_DATE_TIME, RIDE_IN_PAST, RIDE_TOO_SOON}
  {
    if ride.None? then Invalid(INVALID_DATE_TIME)
    else if ride.value < StartOfDay(now) then Invalid(RIDE_IN_PAST)
    else if DayOf(ride.value) == DayOf(now) && ride.value < now + MINIMUM_LEAD_MINUTES * MS_PER_MINUTE then
      Invalid(RIDE_TOO_SOON)
    else Valid
  }

  /** Instants before the start of a day are exactly those on earlier days. */
  lemma BeforeStartOfDay(t: int, now: int)
    ensures t < StartOfDay(now) <==> DayOf(t) < DayOf(now)
  {
    var q, d := DayOf(t), DayOf(now);
    assert q * MS_PER_DAY <= t < q * MS_PER_DAY + MS_PER_DAY;
    if q < d {
      assert q * MS_PER_DAY + MS_PER_DAY <= d * MS_PER_DAY;
    } else {
      assert d * MS_PER_DAY <= q * MS_PER_DAY;
    }
  }

  lemma DayOfMonotone(t: int, u: int)
    requires t <= u
    ensures DayOf(t) <= DayOf(u)
  {
  }

  /** The four outcomes, in the order the checks are made, in terms of
      calendar days. A time earlier today is reported as too soon, not as in
      the past. */
  lemma RideDateTimeOutcomes(ride: Option<int>, now: int)
    ensures ride.None? ==> IsRideDateTimeValid(ride, now) == Invalid(INVALID_DATE_TIME)
    ensures ride.Some? && DayOf(ride.value) < DayOf(now) ==>
              IsRideDateTimeValid(ride, now) == Invalid(RIDE_IN_PAST)
    ensures ride.Some? && DayOf(ride.value) == DayOf(now) && ride.value < now + MINIMUM_LEAD_MINUTES * MS_PER_MINUTE ==>
              IsRideDateTimeValid(ride, now) == Invalid(RIDE_TOO_SOON)
    ensures ride.Some? ==>
              (IsRideDateTimeValid(ride, now) == Valid <==>
                 DayOf(ride.value) > DayOf(now)
                 || (DayOf(ride.value) == DayOf(now) && ride.value >= now + MINIMUM_LEAD_MINUTES * MS_PER_MINUTE))
  {
    if ride.Some? {
      BeforeStartOfDay(ride.value, now);
    }
  }

  /** Moving a valid ride later keeps it valid. */
  lemma RideDateTimeMonotone(t: int, u: int, now: int)
    requires t <= u
    requires IsRideDateTimeValid(Some(t), now) == Valid
    ensures IsRideDateTimeValid(Some(u), now) == Valid
  {
    RideDateTimeOutcomes(Some(t), now);
    RideDateTimeOutcomes(Some(u), now);
    DayOfMonotone(t, u);
  }

  lemma DayOfAt(day: int, minute: int)
    requires 0 <= minute < MINUTES_PER_DAY
    ensures DayOf(At(day, minute)) == day
  {
    var t := At(day, minute);
    assert day * MS_PER_DAY <= t < day * MS_PER_DAY + MS_PER_DAY;
  }

  /** With both instants given as (day, minute of day): a ride is valid
      exactly when it is on a later day, whatever its time, or on the same
      day at least thirty minutes ahead. */
  lemma RideDateTimeByMinute(day: int, minute: int, nowDay: int, nowMinute: int)
    requires 0 <= minute < MINUTES_PER_DAY && 0 <= nowMinute < MINUTES_PER_DAY
    ensures IsRideDateTimeValid(Some(At(day, minute)), At(nowDay, nowMinute)) == Valid <==>
              day > nowDay || (day == nowDay && minute >= nowMinute + MINIMUM_LEAD_MINUTES)
  {
    DayOfAt(day, minute);
    DayOfAt(nowDay, nowMinute);
    RideDateTimeOutcomes(Some(At(day, minute)), At(nowDay, nowMinute));
  }

  /** At 23:50, a ride at 00:05 the next day is valid although it is only
      fifteen minutes away, while one at 00:05 today is too soon. */
  lemma RideDateTimeMidnightExample(day: int)
    ensures IsRideDateTimeValid(Some(At(day + 1, 5)), At(day, 23 * 60 + 50)) == Valid
    ensures IsRideDateTimeValid(Some(At(day, 5)), At(day, 23 * 60 + 50)) == Invalid(RIDE_TOO_SOON)
  {
    RideDateTimeByMinute(day + 1, 5, day, 23 * 60 + 50);
    DayOfAt(day, 5);
    DayOfAt(day, 23 * 60 + 50);
    RideDateTimeOutcomes(Some(At(day, 5)), At(day, 23 * 60 + 50));
  }

  // ---------------------------------------------------------------------
  // Seats
  // ---------------------------------------------------------------------

  const SEATS_ERROR: string := "O número de assentos deve ser pelo menos 1."

  /** `isSeatsValid` for a numeric seat count. */
  function IsSeatsValid(seats: int): (r: Validation)
    ensures r == Valid <==> seats >= 1
    ensures r != Valid ==> r == Invalid(SEATS_ERROR)
  {
    if seats < 1 || seats == 0 then Invalid(SEATS_ERROR) else Valid
  }
}

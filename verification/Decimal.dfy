/** Decimal text: the log-id codec, and the text form of the sync cursor. */
module Decimal {
  import opened Common

  const MAX_LOG_ID: nat := 0x7FFF_FFFF_FFFF_FFFF
  const MAX_SAFE_INTEGER: nat := 0x1F_FFFF_FFFF_FFFF

  predicate IsDigit(c: char) { '0' <= c <= '9' }

  predicate AllDigits(s: string) { forall i :: 0 <= i < |s| ==> IsDigit(s[i]) }

  /** Decimal text as `str` prints a positive integer. */
  predicate Canonical(s: string) { s != "" && AllDigits(s) && s[0] != '0' }

  function DigitOf(c: char): nat
    requires IsDigit(c)
  {
    (c as int) - ('0' as int)
  }

  function DigitChar(d: nat): (c: char)
    requires d < 10
    ensures IsDigit(c) && DigitOf(c) == d
  {
    (('0' as int) + d) as char
  }

  function Print(n: nat): (s: string)
    ensures s != "" && AllDigits(s)
    ensures n > 0 ==> Canonical(s)
  {
    if n < 10 then [DigitChar(n)] else Print(n / 10) + [DigitChar(n % 10)]
  }

  function Value(s: string): nat
    requires AllDigits(s)
  {
    if s == "" then 0 else 10 * Value(s[..|s| - 1]) + DigitOf(s[|s| - 1])
  }

  /** Python's `<` on strings. */
  predicate LexLess(a: string, b: string) {
    exists i :: 0 <= i <= |a| && i < |b| && a[..i] == b[..i] && (i == |a| || a[i] < b[i])
  }

  lemma {:induction false} ValueOfPrint(n: nat)
    ensures Value(Print(n)) == n
  {
    if n >= 10 {
      ValueOfPrint(n / 10);
      assert Print(n)[..|Print(n)| - 1] == Print(n / 10);
    }
  }

  lemma {:induction false} PrintOfValue(s: string)
    requires Canonical(s)
    ensures Value(s) > 0 && Print(Value(s)) == s
  {
    var front := s[..|s| - 1];
    assert s == front + [s[|s| - 1]];
    if front != "" {
      PrintOfValue(front);
      assert Value(s) / 10 == Value(front) && Value(s) % 10 == DigitOf(s[|s| - 1]);
    } else {
      assert Value(front) == 0;
    }
  }

  lemma {:induction false} LongerIsGreater(a: string, b: string)
    requires Canonical(a) && AllDigits(b) && |a| > |b|
    ensures Value(a) > Value(b)
  {
    if b == "" {
      PrintOfValue(a);
    } else {
      LongerIsGreater(a[..|a| - 1], b[..|b| - 1]);
    }
  }

  lemma LexLessByFront(a: string, b: string)
    requires |a| == |b| > 0
    ensures
      var n := |a| - 1;
      LexLess(a, b) <==> LexLess(a[..n], b[..n]) || (a[..n] == b[..n] && a[n] < b[n])
  {
    var n := |a| - 1;
    var a', b' := a[..n], b[..n];
    if LexLess(a, b) {
      var i :| 0 <= i <= |a| && i < |b| && a[..i] == b[..i] && (i == |a| || a[i] < b[i]);
      if i < n {
        assert a'[..i] == a[..i] && b'[..i] == b[..i];
      }
    }
    if LexLess(a', b') {
      var i :| 0 <= i <= |a'| && i < |b'| && a'[..i] == b'[..i] && (i == |a'| || a'[i] < b'[i]);
      assert a[..i] == a'[..i] && b[..i] == b'[..i];
    }
  }

  /** Between texts of one length, text order is numeric order. */
  lemma {:induction false} TextOrderIsNumeric(a: string, b: string)
    requires AllDigits(a) && AllDigits(b) && |a| == |b|
    ensures LexLess(a, b) <==> Value(a) < Value(b)
    decreases |a|
  {
    if a != "" {
      var n := |a| - 1;
      LexLessByFront(a, b);
      TextOrderIsNumeric(a[..n], b[..n]);
      TextOrderIsNumeric(b[..n], a[..n]);
      if a[..n] != b[..n] {
        DifferentTexts(a[..n], b[..n]);
      }
    }
  }

  lemma {:induction false} DifferentTexts(a: string, b: string)
    requires |a| == |b| && a != b
    ensures LexLess(a, b) || LexLess(b, a)
  {
    var i := 0;
    while i < |a| && a[i] == b[i]
      invariant 0 <= i <= |a| && a[..i] == b[..i]
    {
      i := i + 1;
      assert a[..i] == a[..i - 1] + [a[i - 1]] && b[..i] == b[..i - 1] + [b[i - 1]];
    }
    assert a[..|a|] == a && b[..|b|] == b;
  }

  /** What a request may carry where a log id is expected. */
  datatype RawId = Number(n: int) | Text(s: string) | OtherKind

  datatype IdError = UnsafeInteger | NotDecimal | LeadingZero | OutOfRange

  /** The bound is tested on text: longer, or as long and greater as text. */
  predicate TextExceeds(s: string, bound: nat) {
    var boundText := Print(bound);
    |s| > |boundText| || (|s| == |boundText| && LexLess(boundText, s))
  }

  function NormalizeId(raw: RawId): (r: Result<nat, IdError>)
    ensures r.Ok? ==> 1 <= r.value <= MAX_LOG_ID
  {
    match raw
    case Number(n) => if 1 <= n <= MAX_SAFE_INTEGER then Ok(n) else Err(UnsafeInteger)
    case OtherKind => Err(NotDecimal)
    case Text(s) =>
      if s == "" || !AllDigits(s) then Err(NotDecimal)
      else if s[0] == '0' then Err(LeadingZero)
      else
        RangeByText(s, MAX_LOG_ID);
        if TextExceeds(s, MAX_LOG_ID) then Err(OutOfRange) else Ok(Value(s))
  }

  /** The text test for a bound is the numeric test. */
  lemma RangeByText(s: string, bound: nat)
    requires Canonical(s) && bound > 0
    ensures Value(s) > 0
    ensures TextExceeds(s, bound) <==> Value(s) > bound
  {
    var boundText := Print(bound);
    PrintOfValue(s);
    ValueOfPrint(bound);
    if |s| > |boundText| {
      LongerIsGreater(s, boundText);
    } else if |s| < |boundText| {
      LongerIsGreater(boundText, s);
    } else {
      TextOrderIsNumeric(boundText, s);
    }
  }

  /** The id field of a listed log row. */
  function PrintLogId(id: int): Result<string, IdError> {
    if 1 <= id <= MAX_LOG_ID then Ok(Print(id)) else Err(OutOfRange)
  }

  /** Every id the listing prints is read back as itself. */
  lemma PrintedIdIsReadBack(id: int)
    ensures PrintLogId(id).Ok? <==> 1 <= id <= MAX_LOG_ID
    ensures PrintLogId(id).Ok? ==> NormalizeId(Text(PrintLogId(id).value)) == Ok(id)
  {
    if 1 <= id <= MAX_LOG_ID {
      ValueOfPrint(id);
      RangeByText(Print(id), MAX_LOG_ID);
    }
  }

  /** Exactly the printed forms of 1..2^63-1 are accepted as text, and each means that number. */
  lemma AcceptedTextIsPrinted(s: string, id: nat)
    ensures NormalizeId(Text(s)) == Ok(id) <==> 1 <= id <= MAX_LOG_ID && s == Print(id)
  {
    hide Print, Value, TextExceeds;
    if !Canonical(s) {
      assert NormalizeId(Text(s)).Err?;
      if id > 0 {
        assert s != Print(id);
      }
    } else {
      RangeByText(s, MAX_LOG_ID);
      PrintOfValue(s);
      assert NormalizeId(Text(s)) == if Value(s) > MAX_LOG_ID then Err(OutOfRange) else Ok(Value(s));
      CanonicalTextOf(s, id);
    }
  }

  lemma CanonicalTextOf(s: string, n: nat)
    requires Canonical(s)
    ensures s == Print(n) <==> Value(s) == n
  {
    ValueOfPrint(n);
    PrintOfValue(s);
  }

  /** A number is accepted exactly from 1 to 2^53-1, as itself, and refused as unsafe otherwise. */
  lemma NumberIdExactly(n: int)
    ensures NormalizeId(Number(n)) == if 1 <= n <= 9007199254740991 then Ok(n) else Err(UnsafeInteger)
  {
  }

  /** Why a text is refused: it is not decimal, it begins with a zero, or it is 2^63 or more. */
  lemma RefusedTextExactly(s: string)
    ensures NormalizeId(Text(s)) == Err(NotDecimal) <==> s == "" || exists i :: 0 <= i < |s| && !('0' <= s[i] <= '9')
    ensures NormalizeId(Text(s)) == Err(LeadingZero) <==>
            s != "" && s[0] == '0' && forall i :: 0 <= i < |s| ==> '0' <= s[i] <= '9'
    ensures NormalizeId(Text(s)) == Err(OutOfRange) <==>
            Canonical(s) && Value(s) > 9223372036854775807
    ensures NormalizeId(Text(s)) != Err(UnsafeInteger) && NormalizeId(OtherKind) == Err(NotDecimal)
  {
    hide TextExceeds, Value;
    if Canonical(s) {
      RangeByText(s, MAX_LOG_ID);
    }
  }

  /** The value of a decimal text, digit by digit; zeros in front do not count. */
  lemma {:induction false} ValueOfDigits(s: string, c: char)
    requires AllDigits(s) && '0' <= c <= '9'
    ensures Value(s + [c]) == 10 * Value(s) + (c as int - 48)
    ensures Value("0" + s) == Value(s)
  {
    assert (s + [c])[..|s|] == s;
    if s != "" {
      var n := |s| - 1;
      ValueOfDigits(s[..n], s[n]);
      assert ("0" + s)[..|s|] == "0" + s[..n];
    }
  }
}

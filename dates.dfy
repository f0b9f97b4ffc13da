/** `format_date_str`: brings a date field into the `YYYY-MM-DD` form the
    data warehouse loads, or rejects it.

    The two patterns are Python regular expressions applied with
    `re.match`, so they are anchored at the start, and their trailing `$`
    matches at the end of the string or just before a final "\n". Both are
    modelled exactly; `\d` is taken as the ASCII digits. */
module Dates {
  import opened Base

  datatype DateError = CannotParse(value: string)
  {
    /** `str(e)` of the `ValueError` raised for an unparseable value. */
    function Message(): string
    {
      "Cannot parse value " + value + " as date"
    }
  }

  predicate IsDigit(c: char)
  {
    '0' <= c <= '9'
  }

  predicate AllDigits(s: string)
  {
    forall i :: 0 <= i < |s| ==> IsDigit(s[i])
  }

  /** Exactly `YYYY-MM-DD`: four digits, a dash, two digits, a dash, two digits. */
  predicate IsCanonical(s: string)
  {
    |s| == 10 && AllDigits(s[..4]) && s[4] == '-' && AllDigits(s[5..7]) && s[7] == '-' && AllDigits(s[8..])
  }

  /** Exactly `YYYYMMDD`: eight digits. */
  predicate IsRaw(s: string)
  {
    |s| == 8 && AllDigits(s)
  }

  /** `BQ_DATE_PATTERN.match(s)`, i.e. `\d{4}-\d{2}-\d{2}$`. */
  predicate MatchesBqDate(s: string)
  {
    IsCanonical(s) || (|s| == 11 && IsCanonical(s[..10]) && s[10] == '\n')
  }

  /** `RAW_DATE_PATTERN.match(s)`, i.e. `\d{8}$`. */
  predicate MatchesRawDate(s: string)
  {
    IsRaw(s) || (|s| == 9 && IsRaw(s[..8]) && s[8] == '\n')
  }

  /** `format_date_str(s)`: a value the warehouse pattern already matches is
      kept as it is, an eight-digit value is cut into 4/2/2 groups joined by
      dashes, and anything else raises `ValueError`. */
  function FormatDateStr(s: string): (r: Result<string, DateError>)
    ensures r.Ok? <==> MatchesBqDate(s) || MatchesRawDate(s)
    ensures r.Ok? ==> MatchesBqDate(r.value)
    ensures r.Err? ==> r.error == CannotParse(s)
  {
    if MatchesBqDate(s) then Ok(s)
    else if MatchesRawDate(s) then
      var d := s[0..4] + "-" + s[4..6] + "-" + s[6..8];
      assert AllDigits(s[..8]);
      assert d[..4] == s[..4] && d[5..7] == s[4..6] && d[8..] == s[6..8];
      Ok(d)
    else Err(CannotParse(s))
  }

  /** A value already in `YYYY-MM-DD` form comes back unchanged. */
  lemma CanonicalUnchanged(s: string)
    requires IsCanonical(s)
    ensures FormatDateStr(s) == Ok(s)
  {
  }

  /** Every eight-digit value, with or without a final "\n", becomes
      `d[0:4] + "-" + d[4:6] + "-" + d[6:8]`, which is in `YYYY-MM-DD` form. */
  lemma RawReformatted(d: string)
    requires MatchesRawDate(d)
    ensures FormatDateStr(d) == Ok(d[0..4] + "-" + d[4..6] + "-" + d[6..8])
    ensures IsCanonical(FormatDateStr(d).value)
  {
    assert !MatchesBqDate(d) by {
      if |d| == 10 || |d| == 11 {
      }
    }
  }

  /** A slash-separated date is refused. */
  lemma SlashDateRejected()
    ensures FormatDateStr("2020/01/01") == Err(CannotParse("2020/01/01"))
  {
    assert "2020/01/01"[4] == '/';
    assert !IsDigit('/');
    assert !AllDigits("2020/01/01");
  }

  /** Applying the normaliser to its own result changes nothing. */
  lemma Idempotent(s: string)
    requires FormatDateStr(s).Ok?
    ensures FormatDateStr(FormatDateStr(s).value) == FormatDateStr(s)
  {
  }

  /** The result is exactly ten characters in `YYYY-MM-DD` form, except when
      the input was such a value followed by "\n" (the `$` anchor lets that
      through unchanged). */
  lemma ResultCanonical(s: string)
    requires FormatDateStr(s).Ok?
    ensures IsCanonical(FormatDateStr(s).value) || (FormatDateStr(s).value == s && IsCanonical(s[..10]) && s[10..] == "\n")
  {
    if !MatchesBqDate(s) {
      RawReformatted(if IsRaw(s) then s else s[..8]);
      assert s[0..4] + "-" + s[4..6] + "-" + s[6..8] == s[..8][0..4] + "-" + s[..8][4..6] + "-" + s[..8][6..8];
    }
  }
}

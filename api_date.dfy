/**
 * The API date format `yyyy-MM-dd'T'HH:mm:ss'Z'` in UTC, read strictly:
 * exactly twenty characters, fixed-width digit fields, fields in range.
 */
module ApiDate {
  import opened Wrappers
  import opened Entities

  predicate IsDigit(c: char) { '0' <= c <= '9' }

  predicate AllDigits(s: string) { forall i :: 0 <= i < |s| ==> IsDigit(s[i]) }

  function DigitChar(d: int): (c: char)
    requires 0 <= d <= 9
    ensures IsDigit(c)
  {
    ('0' as int + d) as char
  }

  function Pow10(w: nat): (p: nat)
    ensures p >= 1
  {
    if w == 0 then 1 else 10 * Pow10(w - 1)
  }

  /** The last `width` decimal digits of `n`, zero-padded on the left. */
  function Pad(n: nat, width: nat): (r: string)
    ensures |r| == width && AllDigits(r)
  {
    if width == 0 then "" else Pad(n / 10, width - 1) + [DigitChar(n % 10)]
  }

  /** The number a run of decimal digits denotes. */
  function DigitsValue(s: string): nat
    requires AllDigits(s)
  {
    if |s| == 0 then 0
    else DigitsValue(s[..|s| - 1]) * 10 + (s[|s| - 1] as int - '0' as int)
  }

  /** Reading back a padded number gives the number when it fits the width. */
  lemma {:induction false} PadValue(n: nat, width: nat)
    requires n < Pow10(width)
    ensures DigitsValue(Pad(n, width)) == n
  {
    if width > 0 {
      PadValue(n / 10, width - 1);
      var p := Pad(n, width);
      assert p[..|p| - 1] == Pad(n / 10, width - 1);
    }
  }

  /** A run of digits is the padding of its own value. */
  lemma {:induction false} ValuePad(s: string)
    requires AllDigits(s)
    ensures DigitsValue(s) < Pow10(|s|)
    ensures Pad(DigitsValue(s), |s|) == s
  {
    if |s| > 0 {
      var init := s[..|s| - 1];
      ValuePad(init);
      var v := DigitsValue(s);
      assert v / 10 == DigitsValue(init);
      assert init + [s[|s| - 1]] == s;
    }
  }

  /** `API_DATE_FORMAT.format`. */
  function FormatDate(d: Date): (r: string)
    ensures |r| == 20
  {
    Pad(d.year, 4) + "-" + Pad(d.month, 2) + "-" + Pad(d.day, 2) + "T"
      + Pad(d.hour, 2) + ":" + Pad(d.minute, 2) + ":" + Pad(d.second, 2) + "Z"
  }

  /** The separators the format puts between the digit fields. */
  predicate Punctuated(s: string)
    requires |s| == 20
  {
    s[4] == '-' && s[7] == '-' && s[10] == 'T' && s[13] == ':' && s[16] == ':' && s[19] == 'Z'
  }

  predicate DigitFields(s: string)
    requires |s| == 20
  {
    AllDigits(s[0..4]) && AllDigits(s[5..7]) && AllDigits(s[8..10])
      && AllDigits(s[11..13]) && AllDigits(s[14..16]) && AllDigits(s[17..19])
  }

  /** `API_DATE_FORMAT.parse`: the date, or `None` where the parser throws. */
  function ParseDate(s: string): Option<Date> {
    if |s| != 20 || !Punctuated(s) || !DigitFields(s) then None
    else
      var d := DateTime(DigitsValue(s[0..4]), DigitsValue(s[5..7]), DigitsValue(s[8..10]),
                        DigitsValue(s[11..13]), DigitsValue(s[14..16]), DigitsValue(s[17..19]));
      if ValidDate(d) then Some(d) else None
  }

  /** Parsing a formatted date gives the date back. */
  lemma FormatParse(d: Date)
    ensures ParseDate(FormatDate(d)) == Some(d)
  {
    var s := FormatDate(d);
    assert s[0..4] == Pad(d.year, 4);
    assert s[5..7] == Pad(d.month, 2);
    assert s[8..10] == Pad(d.day, 2);
    assert s[11..13] == Pad(d.hour, 2);
    assert s[14..16] == Pad(d.minute, 2);
    assert s[17..19] == Pad(d.second, 2);
    PadValue(d.year, 4);
    PadValue(d.month, 2);
    PadValue(d.day, 2);
    PadValue(d.hour, 2);
    PadValue(d.minute, 2);
    PadValue(d.second, 2);
  }

  /** A punctuated twenty-character text is its six digit fields with the separators between them. */
  lemma Pieces(s: string)
    requires |s| == 20 && Punctuated(s)
    ensures s == s[0..4] + "-" + s[5..7] + "-" + s[8..10] + "T"
      + s[11..13] + ":" + s[14..16] + ":" + s[17..19] + "Z"
  {
    var t := s[0..4] + "-" + s[5..7] + "-" + s[8..10] + "T"
      + s[11..13] + ":" + s[14..16] + ":" + s[17..19] + "Z";
    assert |t| == 20;
    forall i | 0 <= i < 20
      ensures t[i] == s[i]
    {
    }
  }

  /** The format is strict: a text that parses is exactly the formatting of its date. */
  lemma ParseFormat(s: string)
    requires ParseDate(s).Some?
    ensures FormatDate(ParseDate(s).value) == s
  {
    ValuePad(s[0..4]);
    ValuePad(s[5..7]);
    ValuePad(s[8..10]);
    ValuePad(s[11..13]);
    ValuePad(s[14..16]);
    ValuePad(s[17..19]);
    Pieces(s);
  }
}

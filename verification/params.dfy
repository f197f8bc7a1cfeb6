/**
  Query parameters and the integer ids they carry. A query parameter arrives
  as text; Python's `str(int)` writes an id back as text, and Django's lookups
  read text as an integer (`int(text)`), raising `ValueError` on anything else.
*/
module Params {
  import opened Common
  import opened Domain

  predicate IsDigit(c: char)
  {
    '0' <= c <= '9'
  }

  predicate AllDigits(s: string)
  {
    forall i :: 0 <= i < |s| ==> IsDigit(s[i])
  }

  function DigitChar(d: int): (c: char)
    requires 0 <= d < 10
    ensures IsDigit(c)
  {
    (48 + d) as char
  }

  function DigitValue(c: char): (d: int)
    requires IsDigit(c)
    ensures 0 <= d < 10
  {
    (c as int) - 48
  }

  /** The decimal digits of `n`, most significant first, without leading zeros. */
  function Digits(n: nat): (s: string)
    ensures |s| > 0 && AllDigits(s)
    ensures |s| > 1 ==> s[0] != '0'
  {
    if n < 10 then [DigitChar(n)] else Digits(n / 10) + [DigitChar(n % 10)]
  }

  /** Python's `str(n)` for an integer. */
  function IdText(n: int): (s: string)
    ensures |s| > 0
  {
    if n < 0 then "-" + Digits(-n) else Digits(n)
  }

  /** The value of a run of decimal digits. */
  function DigitsValue(s: string): (n: nat)
    requires AllDigits(s)
  {
    if |s| == 0 then 0 else DigitsValue(s[..|s| - 1]) * 10 + DigitValue(s[|s| - 1])
  }

  /**
    `int(s)` on an optional minus sign followed by decimal digits; `None` where
    Python raises `ValueError`. Surrounding blanks, a plus sign and digit
    separators, which Python also accepts, are not modelled.
  */
  function ParseId(s: string): (r: Option<int>)
    ensures r.Some? ==> |s| > 0
    ensures |s| > 0 && AllDigits(s) ==> r == Some(DigitsValue(s))
    ensures |s| > 0 && s[0] != '-' && !AllDigits(s) ==> r.None?
  {
    if |s| > 0 && AllDigits(s) then Some(DigitsValue(s))
    else if |s| > 1 && s[0] == '-' && AllDigits(s[1..]) then Some(0 - DigitsValue(s[1..]) as int)
    else None
  }

  lemma {:induction false} DigitsRoundTrip(n: nat)
    ensures DigitsValue(Digits(n)) == n
  {
    if n >= 10 {
      DigitsRoundTrip(n / 10);
      var s := Digits(n / 10) + [DigitChar(n % 10)];
      assert s[..|s| - 1] == Digits(n / 10);
    }
  }

  /** Reading back the text of an id gives the id. */
  lemma IdTextRoundTrip(n: int)
    ensures ParseId(IdText(n)) == Some(n)
  {
    if n < 0 {
      DigitsRoundTrip(-n);
      assert IdText(n)[1..] == Digits(-n);
      assert !IsDigit(IdText(n)[0]);
    } else {
      DigitsRoundTrip(n);
    }
  }

  /**
    Two texts can name the same id and still differ as text: `"07"` reads as 7
    but is not `str(7)`. Comparisons of the form `qp == str(user.place_id)`
    therefore reject a zero-padded spelling of the user's own place.
  */
  lemma PaddedIdDiffers()
    ensures ParseId("07") == Some(7) && IdText(7) == "7" && "07" != IdText(7)
  {
    assert DigitsValue("07"[..1]) == 0;
  }

  /**
    The value of `request.query_params.get('place_id')`: absent or text. Text
    is falsy in Python exactly when it is empty.
  */
  type Param = Option<string>

  predicate Truthy(qp: Param)
  {
    qp.Some? && qp.value != ""
  }

  /** The value Python's `qp or own` yields: the parameter text, or else the own id. */
  datatype Key = NoKey | IntKey(n: int) | TextKey(s: string)

  function OrKey(qp: Param, own: Option<int>): (k: Key)
    ensures k.TextKey? <==> Truthy(qp)
    ensures k.TextKey? ==> qp == Some(k.s)
    ensures !Truthy(qp) ==> (k.NoKey? <==> own.None?)
    ensures !Truthy(qp) && own.Some? ==> k == IntKey(own.value)
  {
    if Truthy(qp) then TextKey(qp.value)
    else if own.Some? then IntKey(own.value)
    else NoKey
  }

  /**
    The id a key denotes when Django uses it in a lookup (`filter(parent=k)`,
    `get(pk=k)`): no key selects null, and text that is not an integer raises
    `ValueError`.
  */
  function KeyLookup(k: Key): (r: Result<Option<int>>)
    ensures r == Err(ValueError) <==> k.TextKey? && ParseId(k.s).None?
    ensures r.Err? ==> r.error == ValueError
    ensures k.NoKey? ==> r == Ok(None)
    ensures k.IntKey? ==> r == Ok(Some(k.n))
    ensures k.TextKey? && r.Ok? ==> r.value == ParseId(k.s)
  {
    match k
    case NoKey => Ok(None)
    case IntKey(n) => Ok(Some(n))
    case TextKey(s) => if ParseId(s).Some? then Ok(ParseId(s)) else Err(ValueError)
  }

  /** Python's `int(k)`: no key is a `TypeError`, text that is not an integer a `ValueError`. */
  function KeyInt(k: Key): (r: Result<int>)
    ensures k.NoKey? <==> r == Err(TypeError)
    ensures r.Ok? ==> KeyLookup(k) == Ok(Some(r.value))
    ensures r.Err? && k.TextKey? ==> r.error == ValueError && KeyLookup(k).Err?
  {
    match k
    case NoKey => Err(TypeError)
    case IntKey(n) => Ok(n)
    case TextKey(s) => if ParseId(s).Some? then Ok(ParseId(s).value) else Err(ValueError)
  }
}

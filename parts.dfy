/** `getParts`: splitting a CSS value such as `"+=10px"` into a relative
    token, a number and a unit with `/^([+-]=)?([\d+-.]+)(.*)$/`, and the
    `parseFloat` applied to the number text. */
module Parts {
  import opened Wrappers
  import opened Chars
  import opened Values

  /** The pattern's number class `[\d+-.]`. Inside a class `+-.` is a range,
      U+002B..U+002E, so the class is the digits and `+`, `,`, `-`, `.`. */
  predicate IsNumberChar(c: char) { IsDigit(c) || '+' <= c <= '.' }

  predicate IsNumberText(s: string) { forall i :: 0 <= i < |s| ==> IsNumberChar(s[i]) }

  /** The length of the longest run of number characters at the start of `s`. */
  function NumberRunLength(s: string): (n: nat)
    ensures n <= |s|
    ensures IsNumberText(s[..n])
    ensures n < |s| ==> !IsNumberChar(s[n])
  {
    if s == [] || !IsNumberChar(s[0]) then 0 else 1 + NumberRunLength(s[1..])
  }

  /** The decimal literal at the start of an unsigned text: digits, then a
      point and digits if any follow it; `None` when there is no digit. */
  function DecimalPrefix(body: string): (v: Option<real>)
    ensures v.Some? ==> v.value >= 0.0
  {
    var n := DigitRunLength(body);
    var whole := DecimalValue(body[..n]) as real;
    if n < |body| && body[n] == '.' && DigitRunLength(body[n + 1..]) > 0 then
      var tail := body[n + 1..];
      Some(whole + FractionValue(tail[..DigitRunLength(tail)]))
    else if n > 0 then Some(whole)
    else None
  }

  /** `parseFloat` on text made of number characters (the only text `getParts`
      gives it): an optional sign and the decimal literal after it, read as far
      as it goes; `NaN` when there is no digit. */
  function ParseFloat(t: string): (v: JsValue)
    requires IsNumberText(t)
    ensures v.Number? || v == NaN
  {
    var signed := |t| > 0 && (t[0] == '+' || t[0] == '-');
    match DecimalPrefix(if signed then t[1..] else t)
    case None => NaN
    case Some(m) => Number(if signed && t[0] == '-' then -m else m)
  }

  /** `"+="` and `"-="`. */
  datatype Sign = Add | Subtract

  function TokenText(relative: Option<Sign>): (token: string)
  {
    match relative
    case None => ""
    case Some(Add) => "+="
    case Some(Subtract) => "-="
  }

  /** The three groups of a successful match. */
  datatype PartsMatch = PartsMatch(relative: Option<Sign>, number: string, unit: string)

  /** The match of `/^([+-]=)?([\d+-.]+)(.*)$/`, with JavaScript's backtracking:
      the optional token is taken when a number character follows it, and
      otherwise the match is retried without it (so `"+=px"` gives the
      number `"+"` and the unit `"=px"`). Line terminators are not modelled. */
  function MatchParts(s: string): (m: Option<PartsMatch>)
    ensures m.Some? ==> |m.value.number| > 0 && IsNumberText(m.value.number)
  {
    if |s| >= 2 && (s[0] == '+' || s[0] == '-') && s[1] == '=' && NumberRunLength(s[2..]) > 0 then
      var tail := s[2..];
      var n := NumberRunLength(tail);
      Some(PartsMatch(Some(if s[0] == '+' then Add else Subtract), tail[..n], tail[n..]))
    else
      var n := NumberRunLength(s);
      if n > 0 then Some(PartsMatch(None, s[..n], s[n..])) else None
  }

  /** The object `getParts` returns: its fields stay `undefined` when the pattern fails. */
  datatype Parts = Parts(relative: Option<Sign>, number: JsValue, unit: Option<string>)

  /** `getParts`: every field stays `undefined` exactly when the pattern
      fails; a match always gives a unit and a number or `NaN`. */
  function GetParts(s: string): (p: Parts)
    ensures MatchParts(s).None? <==> p == Parts(None, Undefined, None)
    ensures MatchParts(s).Some? ==> p.unit.Some? && (p.number.Number? || p.number == NaN)
  {
    match MatchParts(s)
    case None => Parts(None, Undefined, None)
    case Some(m) => Parts(m.relative, ParseFloat(m.number), Some(m.unit))
  }

  /** A successful match splits the input exactly into token, number and unit;
      the number text is a nonempty run of number characters and the greedy
      run leaves no number character at the head of the unit. */
  lemma MatchPartsSplits(s: string)
    requires MatchParts(s).Some?
    ensures var m := MatchParts(s).value;
      && TokenText(m.relative) + m.number + m.unit == s
      && |m.number| > 0 && IsNumberText(m.number)
      && (m.unit == [] || !IsNumberChar(m.unit[0]))
  {
    var m := MatchParts(s).value;
    if m.relative.Some? {
      var tail := s[2..];
      var n := NumberRunLength(tail);
      assert m.number == tail[..n] && m.unit == tail[n..];
      assert TokenText(m.relative) == s[..2];
      assert tail == tail[..n] + tail[n..];
      assert s == s[..2] + tail;
      assert m.unit == [] || m.unit[0] == tail[n];
    } else {
      var n := NumberRunLength(s);
      assert m.number == s[..n] && m.unit == s[n..];
      assert s == s[..n] + s[n..];
      assert m.unit == [] || m.unit[0] == s[n];
    }
  }

  /** The pattern matches exactly the values that start with a number character. */
  lemma MatchPartsIff(s: string)
    ensures MatchParts(s).Some? <==> |s| > 0 && IsNumberChar(s[0])
  {
    if |s| > 0 && IsNumberChar(s[0]) {
      assert NumberRunLength(s) > 0;
    }
  }

  /** The relative token is captured exactly when the value starts with `+=` or
      `-=` followed by a number character. */
  lemma MatchPartsRelative(s: string)
    ensures (MatchParts(s).Some? && MatchParts(s).value.relative.Some?) <==>
      (|s| >= 3 && (s[..2] == "+=" || s[..2] == "-=") && IsNumberChar(s[2]))
    ensures MatchParts(s).Some? && MatchParts(s).value.relative == Some(Subtract) <==>
      (|s| >= 3 && s[..2] == "-=" && IsNumberChar(s[2]))
  {
    if |s| >= 3 && IsNumberChar(s[2]) {
      assert s[2..][0] == s[2];
      assert NumberRunLength(s[2..]) > 0;
    }
    if |s| >= 2 {
      assert s[..2] == [s[0], s[1]];
      if |s| >= 3 && NumberRunLength(s[2..]) > 0 {
        assert s[2] == s[2..][0];
      }
    }
  }

  /** `parseFloat` reads a leading run of digits as that integer when no fraction follows. */
  lemma ParseFloatReadsInteger(t: string, digits: string, rest: string)
    requires |digits| > 0 && AllDigits(digits) && IsNumberText(rest)
    requires rest == [] || (!IsDigit(rest[0]) && rest[0] != '.')
    requires t == digits + rest
    ensures IsNumberText(t)
    ensures ParseFloat(t) == Number(DecimalValue(digits) as real)
  {
    PrefixInteger(t, digits, rest);
    forall i | 0 <= i < |t|
      ensures IsNumberChar(t[i])
    {
      if i < |digits| { assert t[i] == digits[i]; } else { assert t[i] == rest[i - |digits|]; }
    }
    assert t[0] == digits[0];
    ParseFloatUnsigned(t, DecimalValue(digits) as real);
  }

  /** A run of digits not followed by a point or a digit is the whole decimal literal. */
  lemma PrefixInteger(t: string, digits: string, rest: string)
    requires |digits| > 0 && AllDigits(digits)
    requires rest == [] || (!IsDigit(rest[0]) && rest[0] != '.')
    requires t == digits + rest
    ensures DecimalPrefix(t) == Some(DecimalValue(digits) as real)
  {
    DigitRunOfPrefix(digits, rest);
    assert t[..|digits|] == digits;
    if |digits| < |t| { assert t[|digits|] == rest[0]; }
  }

  /** `parseFloat` reads digits, a point and digits as the decimal number they denote. */
  lemma ParseFloatReadsDecimal(t: string, whole: string, fraction: string, rest: string)
    requires AllDigits(whole) && AllDigits(fraction) && |fraction| > 0 && IsNumberText(rest)
    requires rest == [] || !IsDigit(rest[0])
    requires t == whole + ("." + (fraction + rest))
    ensures IsNumberText(t)
    ensures ParseFloat(t) == Number(DecimalValue(whole) as real + FractionValue(fraction))
  {
    PrefixDecimal(t, whole, fraction, rest);
    DecimalIsNumberText(t, whole, fraction, rest);
    if |whole| > 0 { assert t[0] == whole[0]; } else { assert t[0] == '.'; }
    ParseFloatUnsigned(t, DecimalValue(whole) as real + FractionValue(fraction));
  }

  /** Number text that starts with no sign is read as its decimal literal. */
  lemma ParseFloatUnsigned(t: string, m: real)
    requires IsNumberText(t) && t != [] && t[0] != '+' && t[0] != '-'
    requires DecimalPrefix(t) == Some(m)
    ensures ParseFloat(t) == Number(m)
  {
  }

  /** A minus sign negates the decimal literal after it. */
  lemma ParseFloatNegated(t: string, body: string, m: real)
    requires t == "-" + body && IsNumberText(body)
    requires DecimalPrefix(body) == Some(m)
    ensures IsNumberText(t)
    ensures ParseFloat(t) == Number(-m)
  {
    assert t[0] == '-' && t[1..] == body;
    assert forall i :: 1 <= i < |t| ==> t[i] == body[i - 1];
  }

  /** A plus sign leaves the decimal literal after it as it is. */
  lemma ParseFloatUnsignedPlus(t: string, body: string, m: real)
    requires t == "+" + body && IsNumberText(body)
    requires DecimalPrefix(body) == Some(m)
    ensures IsNumberText(t)
    ensures ParseFloat(t) == Number(m)
  {
    assert t[0] == '+' && t[1..] == body;
    assert forall i :: 1 <= i < |t| ==> t[i] == body[i - 1];
  }

  /** Digits, a point, digits and number characters are number text. */
  lemma DecimalIsNumberText(body: string, whole: string, fraction: string, rest: string)
    requires AllDigits(whole) && AllDigits(fraction) && IsNumberText(rest)
    requires body == whole + ("." + (fraction + rest))
    ensures IsNumberText(body)
  {
    forall i | 0 <= i < |body| ensures IsNumberChar(body[i]) {
      if i < |whole| {
        assert body[i] == whole[i];
      } else if i > |whole| + |fraction| {
        assert body[i] == rest[i - |whole| - |fraction| - 1];
      } else if i > |whole| {
        assert body[i] == fraction[i - |whole| - 1];
      }
    }
  }

  lemma PrefixDecimal(body: string, whole: string, fraction: string, rest: string)
    requires AllDigits(whole) && AllDigits(fraction) && |fraction| > 0
    requires rest == [] || !IsDigit(rest[0])
    requires body == whole + ("." + (fraction + rest))
    ensures DecimalPrefix(body) == Some(DecimalValue(whole) as real + FractionValue(fraction))
  {
    PrefixDecimalShape(whole, fraction, rest);
    DecimalPrefixWithFraction(body, |whole|, |fraction|);
  }

  /** Where the digit runs of `whole.fraction` followed by a non-digit end. */
  lemma PrefixDecimalShape(whole: string, fraction: string, rest: string)
    requires AllDigits(whole) && AllDigits(fraction) && |fraction| > 0
    requires rest == [] || !IsDigit(rest[0])
    ensures var body := whole + ("." + (fraction + rest));
      && DigitRunLength(body) == |whole| && |whole| < |body| && body[|whole|] == '.'
      && body[..|whole|] == whole
      && DigitRunLength(body[|whole| + 1..]) == |fraction| && body[|whole| + 1..][..|fraction|] == fraction
  {
    var tail := fraction + rest;
    DigitRunOfPrefix(whole, "." + tail);
    DigitRunOfPrefix(fraction, rest);
    PointSplits(whole, tail);
    assert tail[..|fraction|] == fraction;
  }

  lemma PointSplits(whole: string, tail: string)
    ensures var body := whole + ("." + tail);
      body[..|whole|] == whole && body[|whole|] == '.' && body[|whole| + 1..] == tail
  {
  }

  /** The literal's reading once its digit runs are known. */
  lemma DecimalPrefixWithFraction(body: string, n: nat, f: nat)
    requires n == DigitRunLength(body) && n < |body| && body[n] == '.'
    requires f == DigitRunLength(body[n + 1..]) && f > 0
    ensures DecimalPrefix(body) == Some(DecimalValue(body[..n]) as real + FractionValue(body[n + 1..][..f]))
  {
  }

  /** The value `"10px"` parses to 10 with unit `px`. */
  lemma GetPartsExample()
    ensures GetParts("10px") == Parts(None, Number(10.0), Some("px"))
  {
    assert NumberRunLength("10px") == 2;
    ParseFloatReadsInteger("10", "10", "");
    assert "10px"[..2] == "10";
  }

  /** The value `"+=5px"` parses to a relative 5 with unit `px`. */
  lemma GetPartsRelativeExample()
    ensures GetParts("+=5px") == Parts(Some(Add), Number(5.0), Some("px"))
  {
    assert "+=5px"[2..] == "5px";
    assert NumberRunLength("5px") == 1;
    ParseFloatReadsInteger("5", "5", "");
    assert "5px"[..1] == "5";
  }

  /** A value with no leading number, such as `"auto"`, leaves every part `undefined`. */
  lemma GetPartsUndefinedExample()
    ensures GetParts("auto") == Parts(None, Undefined, None)
  {
  }
}

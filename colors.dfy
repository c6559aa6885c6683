/** `getRGB`: resolving a colour value to an `[r, g, b]` array, with the five
    unanchored colour patterns and the named-colour table. */
module Colors {
  import opened Wrappers
  import opened Chars
  import opened Values
  import opened Parts

  /** The named colours, in the order the source lists them, keyed by lower-case name. */
  const Table: seq<(string, Rgb)> := [
    ("aqua", Rgb(0.0, 255.0, 255.0)),
    ("azure", Rgb(240.0, 255.0, 255.0)),
    ("beige", Rgb(245.0, 245.0, 220.0)),
    ("black", Rgb(0.0, 0.0, 0.0)),
    ("blue", Rgb(0.0, 0.0, 255.0)),
    ("brown", Rgb(165.0, 42.0, 42.0)),
    ("cyan", Rgb(0.0, 255.0, 255.0)),
    ("darkblue", Rgb(0.0, 0.0, 139.0)),
    ("darkcyan", Rgb(0.0, 139.0, 139.0)),
    ("darkgrey", Rgb(169.0, 169.0, 169.0)),
    ("darkgreen", Rgb(0.0, 100.0, 0.0)),
    ("darkkhaki", Rgb(189.0, 183.0, 107.0)),
    ("darkmagenta", Rgb(139.0, 0.0, 139.0)),
    ("darkolivegreen", Rgb(85.0, 107.0, 47.0)),
    ("darkorange", Rgb(255.0, 140.0, 0.0)),
    ("darkorchid", Rgb(153.0, 50.0, 204.0)),
    ("darkred", Rgb(139.0, 0.0, 0.0)),
    ("darksalmon", Rgb(233.0, 150.0, 122.0)),
    ("darkviolet", Rgb(148.0, 0.0, 211.0)),
    ("fuchsia", Rgb(255.0, 0.0, 255.0)),
    ("gold", Rgb(255.0, 215.0, 0.0)),
    ("green", Rgb(0.0, 128.0, 0.0)),
    ("indigo", Rgb(75.0, 0.0, 130.0)),
    ("khaki", Rgb(240.0, 230.0, 140.0)),
    ("lightblue", Rgb(173.0, 216.0, 230.0)),
    ("lightcyan", Rgb(224.0, 255.0, 255.0)),
    ("lightgreen", Rgb(144.0, 238.0, 144.0)),
    ("lightgrey", Rgb(211.0, 211.0, 211.0)),
    ("lightpink", Rgb(255.0, 182.0, 193.0)),
    ("lightyellow", Rgb(255.0, 255.0, 224.0)),
    ("lime", Rgb(0.0, 255.0, 0.0)),
    ("magenta", Rgb(255.0, 0.0, 255.0)),
    ("maroon", Rgb(128.0, 0.0, 0.0)),
    ("navy", Rgb(0.0, 0.0, 128.0)),
    ("olive", Rgb(128.0, 128.0, 0.0)),
    ("orange", Rgb(255.0, 165.0, 0.0)),
    ("pink", Rgb(255.0, 192.0, 203.0)),
    ("purple", Rgb(128.0, 0.0, 128.0)),
    ("violet", Rgb(128.0, 0.0, 128.0)),
    ("red", Rgb(255.0, 0.0, 0.0)),
    ("silver", Rgb(192.0, 192.0, 192.0)),
    ("white", Rgb(255.0, 255.0, 255.0)),
    ("yellow", Rgb(255.0, 255.0, 0.0)),
    ("transparent", Rgb(255.0, 255.0, 255.0))
  ]

  /** `colors.transparent`, what the Safari 3 sentinel resolves to. */
  const Transparent: Rgb := Rgb(255.0, 255.0, 255.0)

  /** The five colour patterns, in the order `getRGB` tries them. */
  datatype Pattern = RgbInt | RgbPercent | Hex6 | Hex3 | Safari3

  // ---------------------------------------------------------------------------
  // The patterns, each anchored at the head of the text it is given

  /** One channel of `reRGBInt`, `\s*([0-9]{1,3})\s*`: its `parseInt(_, 10)`
      value and the text after it. The group is the whole run of digits, since
      the character the pattern needs next is white space, `,` or `)`. */
  function IntChannel(t: string): Option<(real, string)>
  {
    var u := TrimStart(t);
    var n := DigitRunLength(u);
    if 1 <= n <= 3 then Some((DecimalValue(u[..n]) as real, TrimStart(u[n..]))) else None
  }

  /** One channel of `reRGBFloat`, `\s*([0-9]+(?:\.[0-9]+)?)\%\s*`: its
      `parseFloat(_) * 2.55` over the reals, and the text after it. The group's
      `parseFloat` is the decimal literal at the head of the group. */
  function PercentChannel(t: string): Option<(real, string)>
  {
    var u := TrimStart(t);
    var n := DigitRunLength(u);
    var r := u[n..];
    var f := if r != [] && r[0] == '.' then DigitRunLength(r[1..]) else 0;
    var e := if f > 0 then n + 1 + f else n;
    if n > 0 && e < |u| && u[e] == '%' then
      match DecimalPrefix(u)
      case Some(x) => Some((x * 2.55, TrimStart(u[e + 1..])))
      case None => None
    else None
  }

  /** A channel's reading followed by `separator`: the value and the text after the separator. */
  function Separated(m: Option<(real, string)>, separator: char): Option<(real, string)>
  {
    match m
    case None => None
    case Some((v, r)) => if r != [] && r[0] == separator then Some((v, r[1..])) else None
  }

  /** The separator after the `left`-th channel from the end: `)` after the last, `,` before it. */
  function SeparatorBefore(left: nat): char
  {
    if left == 1 then ')' else ','
  }

  /** `left` channels of `reRGBInt`, each followed by its separator. */
  function IntChannels(t: string, left: nat): (m: Option<seq<real>>)
    ensures m.Some? ==> |m.value| == left
    decreases left
  {
    if left == 0 then Some([])
    else
      match Separated(IntChannel(t), SeparatorBefore(left))
      case None => None
      case Some((v, r)) =>
        match IntChannels(r, left - 1)
        case None => None
        case Some(vs) => Some([v] + vs)
  }

  /** `left` channels of `reRGBFloat`, each followed by its separator. */
  function PercentChannels(t: string, left: nat): (m: Option<seq<real>>)
    ensures m.Some? ==> |m.value| == left
    decreases left
  {
    if left == 0 then Some([])
    else
      match Separated(PercentChannel(t), SeparatorBefore(left))
      case None => None
      case Some((v, r)) =>
        match PercentChannels(r, left - 1)
        case None => None
        case Some(vs) => Some([v] + vs)
  }

  /** `rgb(` at the head of `t`. */
  predicate RgbOpening(t: string) {
    |t| >= 4 && t[0] == 'r' && t[1] == 'g' && t[2] == 'b' && t[3] == '('
  }

  function ToRgb(vs: Option<seq<real>>): Option<Rgb>
    requires vs.Some? ==> |vs.value| == 3
  {
    match vs
    case None => None
    case Some(v) => Some(Rgb(v[0], v[1], v[2]))
  }

  /** `t` starts with the characters of `lit`. */
  predicate StartsWith(t: string, lit: string) {
    |lit| <= |t| && forall k :: 0 <= k < |lit| ==> t[k] == lit[k]
  }

  /** `parseInt(a + b, 16)` for two hexadecimal digits. */
  function HexPair(a: char, b: char): real
    requires IsHexDigit(a) && IsHexDigit(b)
  {
    (16 * HexValue(a) + HexValue(b)) as real
  }

  /** `#` followed by `n` hexadecimal digits. */
  predicate HexAt(t: string, n: nat) {
    |t| > n && t[0] == '#' && forall k :: 1 <= k <= n ==> IsHexDigit(t[k])
  }

  /** What a pattern matches at the head of `t`, as the array `getRGB` builds from it. */
  function MatchAt(p: Pattern, t: string): (m: Option<Rgb>)
  {
    match p
    case RgbInt => if RgbOpening(t) then ToRgb(IntChannels(t[4..], 3)) else None
    case RgbPercent => if RgbOpening(t) then ToRgb(PercentChannels(t[4..], 3)) else None
    case Hex6 =>
      if HexAt(t, 6) then Some(Rgb(HexPair(t[1], t[2]), HexPair(t[3], t[4]), HexPair(t[5], t[6]))) else None
    case Hex3 =>
      if HexAt(t, 3) then Some(Rgb(HexPair(t[1], t[1]), HexPair(t[2], t[2]), HexPair(t[3], t[3]))) else None
    case Safari3 =>
      if StartsWith(t, "rgba(0, 0, 0, 0)") then Some(Transparent) else None
  }

  /** What a pattern matches at each index of `s`. */
  function Matches(p: Pattern, s: string): (ms: seq<Option<Rgb>>)
    ensures |ms| == |s|
  {
    seq(|s|, j requires 0 <= j < |s| => MatchAt(p, s[j..]))
  }

  /** The first match in a list of candidate matches. */
  function Leftmost(ms: seq<Option<Rgb>>): (m: Option<Rgb>)
  {
    if ms == [] then None
    else if ms[0].Some? then ms[0]
    else Leftmost(ms[1..])
  }

  /** `exec` of an unanchored pattern: the match at the leftmost index where there is one. */
  function Exec(p: Pattern, s: string): (m: Option<Rgb>)
  {
    Leftmost(Matches(p, s))
  }

  /** `colors[name]` over a list of entries: the colour of the first entry whose key is `name`. */
  function Lookup(t: seq<(string, Rgb)>, name: string): (c: Option<Rgb>)
  {
    if t == [] then None
    else if t[0].0 == name then Some(t[0].1)
    else Lookup(t[1..], name)
  }

  function Named(name: string): (c: Option<Rgb>)
  {
    Lookup(Table, name)
  }

  /** `getRGB`: a three-element array is returned as it is; a string is tried
      against `rgb(n,n,n)`, `rgb(n%,n%,n%)`, `#rrggbb`, `#rgb` and the Safari 3
      sentinel in that order, and otherwise looked up trimmed and in lower case. */
  function GetRGB(v: StyleInput): (c: Option<Rgb>)
    ensures v.Channels? ==> c == Some(v.c)
  {
    match v
    case Channels(rgb) => Some(rgb)
    case Css(s) =>
      if Exec(RgbInt, s).Some? then Exec(RgbInt, s)
      else if Exec(RgbPercent, s).Some? then Exec(RgbPercent, s)
      else if Exec(Hex6, s).Some? then Exec(Hex6, s)
      else if Exec(Hex3, s).Some? then Exec(Hex3, s)
      else if Exec(Safari3, s).Some? then Some(Transparent)
      else Named(Lower(Trim(s)))
  }

  // ---------------------------------------------------------------------------
  // The leftmost-match search

  /** The leftmost match is something exactly when some candidate is, and it
      is a candidate with none before it. */
  lemma {:induction false} LeftmostFinds(ms: seq<Option<Rgb>>)
    ensures Leftmost(ms).Some? <==> exists j :: 0 <= j < |ms| && ms[j].Some?
    ensures Leftmost(ms).Some? ==>
      exists j :: 0 <= j < |ms| && ms[j] == Leftmost(ms) && (forall k :: 0 <= k < j ==> ms[k].None?)
  {
    if ms != [] && ms[0].None? {
      var rest := ms[1..];
      LeftmostFinds(rest);
      forall j | 1 <= j < |ms| ensures ms[j] == rest[j - 1] {}
      if Leftmost(rest).Some? {
        var j :| 0 <= j < |rest| && rest[j] == Leftmost(rest) && forall k :: 0 <= k < j ==> rest[k].None?;
        assert ms[j + 1] == rest[j];
        forall k | 0 <= k < j + 1 ensures ms[k].None? {
          if k > 0 { assert ms[k] == rest[k - 1]; }
        }
      }
    }
  }

  /** A candidate with none before it is the leftmost match. */
  lemma {:induction false} LeftmostAt(ms: seq<Option<Rgb>>, j: nat)
    requires j < |ms| && ms[j].Some?
    requires forall k :: 0 <= k < j ==> ms[k].None?
    ensures Leftmost(ms) == ms[j]
  {
    if j > 0 {
      var rest := ms[1..];
      forall k | 0 <= k < j - 1 ensures rest[k].None? {
        assert rest[k] == ms[k + 1];
      }
      LeftmostAt(rest, j - 1);
    }
  }

  /** `exec` finds something exactly when the pattern matches at some index,
      and what it finds is the match at the first such index. */
  lemma ExecFinds(p: Pattern, s: string)
    ensures Exec(p, s).Some? <==> exists j :: 0 <= j < |s| && MatchAt(p, s[j..]).Some?
    ensures Exec(p, s).Some? ==>
      exists j :: 0 <= j < |s| && MatchAt(p, s[j..]) == Exec(p, s) && (forall k :: 0 <= k < j ==> MatchAt(p, s[k..]).None?)
  {
    var ms := Matches(p, s);
    LeftmostFinds(ms);
    if exists j :: 0 <= j < |s| && MatchAt(p, s[j..]).Some? {
      var j :| 0 <= j < |s| && MatchAt(p, s[j..]).Some?;
      assert ms[j] == MatchAt(p, s[j..]);
    }
    if Exec(p, s).Some? {
      var j :| 0 <= j < |ms| && ms[j] == Leftmost(ms) && forall k :: 0 <= k < j ==> ms[k].None?;
      forall k | 0 <= k < j ensures MatchAt(p, s[k..]).None? {
        assert ms[k] == MatchAt(p, s[k..]);
      }
    }
  }

  /** A match at the head of the text is what `exec` returns. */
  lemma ExecAtStart(p: Pattern, s: string)
    requires MatchAt(p, s).Some?
    ensures Exec(p, s) == MatchAt(p, s)
  {
    var ms := Matches(p, s);
    assert s[0..] == s;
    assert ms[0] == MatchAt(p, s);
    LeftmostAt(ms, 0);
  }

  /** A pattern that needs `'('` or `'#'` never matches text without it. */
  lemma NoMatchWithout(p: Pattern, s: string)
    requires p.Hex6? || p.Hex3? ==> '#' !in s
    requires p.RgbInt? || p.RgbPercent? || p.Safari3? ==> '(' !in s
    ensures Exec(p, s).None?
  {
    forall j | 0 <= j < |s| ensures MatchAt(p, s[j..]).None? {
      var t := s[j..];
      if |t| > 0 {
        assert t[0] == s[j];
      }
      if |t| >= 4 {
        assert t[3] == s[j + 3];
      }
      if p.Safari3? && |t| > 4 {
        assert t[4] == s[j + 4] && "rgba(0, 0, 0, 0)"[4] == '(';
      }
    }
    ExecFinds(p, s);
  }

  /** Text with neither `'('` nor `'#'` is looked up by name. */
  lemma FallsThroughToName(s: string)
    requires '(' !in s && '#' !in s
    ensures GetRGB(Css(s)) == Named(Lower(Trim(s)))
  {
    NoMatchWithout(RgbInt, s);
    NoMatchWithout(RgbPercent, s);
    NoMatchWithout(Hex6, s);
    NoMatchWithout(Hex3, s);
    NoMatchWithout(Safari3, s);
  }

  // ---------------------------------------------------------------------------
  // rgb(n,n,n)

  predicate InDecimalRange(c: Rgb) {
    IsIntegral(c.r) && IsIntegral(c.g) && IsIntegral(c.b)
    && 0.0 <= c.r <= 999.0 && 0.0 <= c.g <= 999.0 && 0.0 <= c.b <= 999.0
  }

  /** A channel of `rgb(n,n,n)` is a whole number below 1000: one to three
      digits, not clamped to 255. */
  lemma IntChannelBound(t: string)
    requires IntChannel(t).Some?
    ensures var v := IntChannel(t).value.0; IsIntegral(v) && 0.0 <= v <= 999.0
  {
    var u := TrimStart(t);
    var n := DigitRunLength(u);
    assert Pow10(n) <= 1000 by {
      assert Pow10(1) == 10 && Pow10(2) == 100 && Pow10(3) == 1000;
    }
  }

  lemma {:induction false} IntChannelsBound(t: string, left: nat)
    requires IntChannels(t, left).Some?
    ensures forall k :: 0 <= k < left ==>
      var v := IntChannels(t, left).value[k]; IsIntegral(v) && 0.0 <= v <= 999.0
    decreases left
  {
    if left > 0 {
      var c := Separated(IntChannel(t), SeparatorBefore(left)).value;
      IntChannelBound(t);
      IntChannelsBound(c.1, left - 1);
    }
  }

  /** Whatever `rgb(n,n,n)` finds has whole channels in [0, 999], and `getRGB`
      returns it, since that pattern is tried first. */
  lemma RgbIntChannelsInRange(s: string)
    requires Exec(RgbInt, s).Some?
    ensures InDecimalRange(Exec(RgbInt, s).value)
    ensures GetRGB(Css(s)) == Exec(RgbInt, s)
  {
    ExecFinds(RgbInt, s);
    var i :| 0 <= i < |s| && MatchAt(RgbInt, s[i..]) == Exec(RgbInt, s);
    IntChannelsBound(s[i..][4..], 3);
    var vs := IntChannels(s[i..][4..], 3).value;
    assert vs[0] == Exec(RgbInt, s).value.r;
  }

  /** A group of `rgb(n,n,n)` as it stands in the text: white space, digits,
      white space, then its separator and whatever follows. */
  function Padded(w: string, g: string, v: string, separator: char, rest: string): string
  {
    w + (g + (v + ([separator] + rest)))
  }

  /** A one- to three-digit group with white space around it, followed by a
      separator, is read as one channel. */
  lemma GroupChannel(w: string, g: string, v: string, separator: char, rest: string)
    requires AllSpaces(w) && AllSpaces(v) && AllDigits(g) && 1 <= |g| <= 3
    requires separator == ',' || separator == ')'
    ensures Separated(IntChannel(Padded(w, g, v, separator, rest)), separator) == Some((DecimalValue(g) as real, rest))
  {
    var r := [separator] + rest;
    var after := v + r;
    var t := g + after;
    assert Padded(w, g, v, separator, rest) == w + t;
    assert t[0] == g[0];
    TrimStartPadded(w, t);
    assert after[0] == if v == [] then separator else v[0];
    DigitRunOfPrefix(g, after);
    assert t[..|g|] == g && t[|g|..] == after;
    assert r[0] == separator;
    TrimStartPadded(v, r);
    assert IntChannel(w + t) == Some((DecimalValue(g) as real, r));
    assert r[1..] == rest;
  }

  /** A padded group, its separator and the channels after it. */
  lemma GroupChannels(w: string, g: string, v: string, left: nat, rest: string, vs: seq<real>)
    requires AllSpaces(w) && AllSpaces(v) && AllDigits(g) && 1 <= |g| <= 3 && left > 0
    requires IntChannels(rest, left - 1) == Some(vs)
    ensures IntChannels(Padded(w, g, v, SeparatorBefore(left), rest), left) == Some([DecimalValue(g) as real] + vs)
  {
    GroupChannel(w, g, v, SeparatorBefore(left), rest);
  }

  /** `rgb(a,b,c)` with one- to three-digit groups, and any white space around
      each group, gives the groups' decimal values, whatever follows it. */
  lemma RgbIntReadsGroups(s: string, w0: string, a: string, w1: string, w2: string, b: string, w3: string,
                          w4: string, c: string, w5: string, rest: string)
    requires AllSpaces(w0) && AllSpaces(w1) && AllSpaces(w2) && AllSpaces(w3) && AllSpaces(w4) && AllSpaces(w5)
    requires AllDigits(a) && AllDigits(b) && AllDigits(c)
    requires 1 <= |a| <= 3 && 1 <= |b| <= 3 && 1 <= |c| <= 3
    requires s == "rgb(" + w0 + a + w1 + "," + w2 + b + w3 + "," + w4 + c + w5 + ")" + rest
    ensures GetRGB(Css(s)) == Some(Rgb(DecimalValue(a) as real, DecimalValue(b) as real, DecimalValue(c) as real))
  {
    RgbText(s, w0, a, w1, w2, b, w3, w4, c, w5, rest);
    PaddedGroupsChannels(w0, a, w1, w2, b, w3, w4, c, w5, rest);
    RgbIntFirst(s, [DecimalValue(a) as real, DecimalValue(b) as real, DecimalValue(c) as real]);
  }

  /** The three padded groups after `rgb(` are read as their decimal values. */
  lemma PaddedGroupsChannels(w0: string, a: string, w1: string, w2: string, b: string, w3: string,
                             w4: string, c: string, w5: string, rest: string)
    requires AllSpaces(w0) && AllSpaces(w1) && AllSpaces(w2) && AllSpaces(w3) && AllSpaces(w4) && AllSpaces(w5)
    requires AllDigits(a) && AllDigits(b) && AllDigits(c)
    requires 1 <= |a| <= 3 && 1 <= |b| <= 3 && 1 <= |c| <= 3
    ensures IntChannels(Padded(w0, a, w1, ',', Padded(w2, b, w3, ',', Padded(w4, c, w5, ')', rest))), 3) ==
      Some([DecimalValue(a) as real, DecimalValue(b) as real, DecimalValue(c) as real])
  {
    var va, vb, vc := DecimalValue(a) as real, DecimalValue(b) as real, DecimalValue(c) as real;
    var tc := Padded(w4, c, w5, ')', rest);
    var tb := Padded(w2, b, w3, ',', tc);
    GroupChannels(w4, c, w5, 1, rest, []);
    assert [vc] + [] == [vc];
    GroupChannels(w2, b, w3, 2, tc, [vc]);
    assert [vb] + [vc] == [vb, vc];
    GroupChannels(w0, a, w1, 3, tb, [vb, vc]);
    assert [va] + [vb, vc] == [va, vb, vc];
  }

  lemma RgbText(s: string, w0: string, a: string, w1: string, w2: string, b: string, w3: string,
                w4: string, c: string, w5: string, rest: string)
    requires s == "rgb(" + w0 + a + w1 + "," + w2 + b + w3 + "," + w4 + c + w5 + ")" + rest
    ensures RgbOpening(s)
    ensures s[4..] == Padded(w0, a, w1, ',', Padded(w2, b, w3, ',', Padded(w4, c, w5, ')', rest)))
  {
    var r10 := w5 + (")" + rest);
    var r9 := c + r10;
    var r8 := w4 + r9;
    var r7 := "," + r8;
    var r6 := w3 + r7;
    var r5 := b + r6;
    var r4 := w2 + r5;
    var r3 := "," + r4;
    var r2 := w1 + r3;
    var r1 := a + r2;
    var r0 := w0 + r1;
    assert s == "rgb(" + w0 + a + w1 + "," + w2 + b + w3 + "," + w4 + c + w5 + (")" + rest);
    assert s == "rgb(" + w0 + a + w1 + "," + w2 + b + w3 + "," + w4 + c + r10;
    assert s == "rgb(" + w0 + a + w1 + "," + w2 + b + w3 + "," + w4 + r9;
    assert s == "rgb(" + w0 + a + w1 + "," + w2 + b + w3 + "," + r8;
    assert s == "rgb(" + w0 + a + w1 + "," + w2 + b + w3 + r7;
    assert s == "rgb(" + w0 + a + w1 + "," + w2 + b + r6;
    assert s == "rgb(" + w0 + a + w1 + "," + w2 + r5;
    assert s == "rgb(" + w0 + a + w1 + "," + r4;
    assert s == "rgb(" + w0 + a + w1 + r3;
    assert s == "rgb(" + w0 + a + r2;
    assert s == "rgb(" + w0 + r1;
    assert s == "rgb(" + r0;
  }

  /** The `rgb(n,n,n)` pattern is tried first: three channels read after `rgb(`
      at the head of the text decide. */
  lemma RgbIntFirst(s: string, vs: seq<real>)
    requires RgbOpening(s) && IntChannels(s[4..], 3) == Some(vs)
    ensures GetRGB(Css(s)) == Some(Rgb(vs[0], vs[1], vs[2]))
  {
    ExecAtStart(RgbInt, s);
  }

  // ---------------------------------------------------------------------------
  // #rrggbb and #rgb

  /** `#rrggbb` gives each channel as the value of its hexadecimal pair, a whole
      number in [0, 255]; the three-digit pattern would also match this text,
      so the six-digit reading wins only because it is tried first. */
  lemma HexSixReadsPairs(h: string)
    requires |h| == 6 && forall k :: 0 <= k < 6 ==> IsHexDigit(h[k])
    ensures GetRGB(Css("#" + h)) ==
      Some(Rgb(HexPair(h[0], h[1]), HexPair(h[2], h[3]), HexPair(h[4], h[5])))
    ensures IsByteColor(GetRGB(Css("#" + h)).value)
    ensures Exec(Hex3, "#" + h).Some?
  {
    var s := "#" + h;
    forall k | 0 <= k < |s| ensures s[k] != '(' {
      if k > 0 { assert s[k] == h[k - 1]; }
    }
    NoMatchWithout(RgbInt, s);
    NoMatchWithout(RgbPercent, s);
    assert HexAt(s, 6);
    ExecAtStart(Hex6, s);
    ExecAtStart(Hex3, s);
    HexPairIsByte(h[0], h[1]);
    HexPairIsByte(h[2], h[3]);
    HexPairIsByte(h[4], h[5]);
  }

  lemma HexPairIsByte(a: char, b: char)
    requires IsHexDigit(a) && IsHexDigit(b)
    ensures IsIntegral(HexPair(a, b)) && 0.0 <= HexPair(a, b) <= 255.0
  {
  }

  /** `#rgb` means `#rrggbb` with each digit doubled. */
  lemma HexThreeDoublesDigits(x: char, y: char, z: char)
    requires IsHexDigit(x) && IsHexDigit(y) && IsHexDigit(z)
    ensures GetRGB(Css(['#', x, y, z])) == GetRGB(Css(['#', x, x, y, y, z, z]))
  {
    var short := ['#', x, y, z];
    assert x != '(' && y != '(' && z != '(';
    NoMatchWithout(RgbInt, short);
    NoMatchWithout(RgbPercent, short);
    forall j | 0 <= j < |short| ensures MatchAt(Hex6, short[j..]).None? {}
    ExecFinds(Hex6, short);
    assert HexAt(short, 3);
    ExecAtStart(Hex3, short);
    var h := [x, x, y, y, z, z];
    assert ['#', x, x, y, y, z, z] == "#" + h;
    HexSixReadsPairs(h);
  }

  // ---------------------------------------------------------------------------
  // The Safari 3 sentinel and named colours

  /** Safari 3's `rgba(0, 0, 0, 0)` resolves to `colors.transparent`, opaque white. */
  lemma SafariTransparentIsWhite()
    ensures GetRGB(Css("rgba(0, 0, 0, 0)")) == Some(Rgb(255.0, 255.0, 255.0))
  {
    var s := "rgba(0, 0, 0, 0)";
    forall j | 0 <= j < |s| ensures s[j] != '#' && (s[j] == 'r' ==> j == 0) {}
    assert s[3] == 'a';
    SentinelFirst(s);
  }

  /** Text with no `rgb(` and no `#` that starts with the sentinel gives `colors.transparent`. */
  lemma SentinelFirst(s: string)
    requires '#' !in s
    requires forall j :: 0 <= j < |s| && s[j] == 'r' ==> j + 3 >= |s| || s[j + 3] != '('
    requires StartsWith(s, "rgba(0, 0, 0, 0)")
    ensures GetRGB(Css(s)) == Some(Transparent)
  {
    NoRgbOpening(RgbInt, s);
    NoRgbOpening(RgbPercent, s);
    NoMatchWithout(Hex6, s);
    NoMatchWithout(Hex3, s);
    ExecAtStart(Safari3, s);
  }

  /** The `rgb(` patterns never match text in which no `r` is followed, three
      characters on, by `(`. */
  lemma NoRgbOpening(p: Pattern, s: string)
    requires p.RgbInt? || p.RgbPercent?
    requires forall j :: 0 <= j < |s| && s[j] == 'r' ==> j + 3 >= |s| || s[j + 3] != '('
    ensures Exec(p, s).None?
  {
    forall j | 0 <= j < |s| ensures MatchAt(p, s[j..]).None? {
      var t := s[j..];
      if |t| >= 4 {
        assert t[0] == s[j] && t[3] == s[j + 3];
      }
    }
    ExecFinds(p, s);
  }

  /** A table key: a nonempty run of lower-case ASCII letters. */
  predicate IsColorName(k: string) {
    |k| > 0 && forall i :: 0 <= i < |k| ==> 'a' <= k[i] <= 'z'
  }

  /** Every key of the table is a lower-case name and every colour in it has
      whole channels in [0, 255]. */
  lemma TableIsWellFormed()
    ensures forall i :: 0 <= i < |Table| ==> IsColorName(Table[i].0) && IsByteColor(Table[i].1)
  {
    TableEntriesFrom0();
    TableEntriesFrom6();
    TableEntriesFrom12();
    TableEntriesFrom18();
    TableEntriesFrom24();
    TableEntriesFrom30();
    TableEntriesFrom36();
    TableEntriesFrom42();
  }

  lemma TableEntriesFrom0()
    ensures forall i :: 0 <= i < 6 ==> IsColorName(Table[i].0) && IsByteColor(Table[i].1)
  {
  }

  lemma TableEntriesFrom6()
    ensures forall i :: 6 <= i < 12 ==> IsColorName(Table[i].0) && IsByteColor(Table[i].1)
  {
  }

  lemma TableEntriesFrom12()
    ensures forall i :: 12 <= i < 18 ==> IsColorName(Table[i].0) && IsByteColor(Table[i].1)
  {
  }

  lemma TableEntriesFrom18()
    ensures forall i :: 18 <= i < 24 ==> IsColorName(Table[i].0) && IsByteColor(Table[i].1)
  {
  }

  lemma TableEntriesFrom24()
    ensures forall i :: 24 <= i < 30 ==> IsColorName(Table[i].0) && IsByteColor(Table[i].1)
  {
  }

  lemma TableEntriesFrom30()
    ensures forall i :: 30 <= i < 36 ==> IsColorName(Table[i].0) && IsByteColor(Table[i].1)
  {
  }

  lemma TableEntriesFrom36()
    ensures forall i :: 36 <= i < 42 ==> IsColorName(Table[i].0) && IsByteColor(Table[i].1)
  {
  }

  lemma TableEntriesFrom42()
    ensures forall i :: 42 <= i < 44 ==> IsColorName(Table[i].0) && IsByteColor(Table[i].1)
  {
  }

  /** The lookup gives the colour of an entry whose key is the name, and
      `undefined` exactly when no key is the name. */
  lemma {:induction false} LookupFinds(t: seq<(string, Rgb)>, name: string)
    ensures Lookup(t, name).None? <==> forall i :: 0 <= i < |t| ==> t[i].0 != name
    ensures Lookup(t, name).Some? ==> exists i :: 0 <= i < |t| && t[i] == (name, Lookup(t, name).value)
  {
    if t != [] && t[0].0 != name {
      LookupFinds(t[1..], name);
      if Lookup(t, name).Some? {
        var i :| 0 <= i < |t[1..]| && t[1..][i] == (name, Lookup(t, name).value);
        assert t[i + 1] == t[1..][i];
      }
      forall i | 1 <= i < |t| ensures t[i] == t[1..][i - 1] {}
    }
  }

  /** The first entry with the key decides the lookup. */
  lemma {:induction false} LookupFirst(t: seq<(string, Rgb)>, name: string, j: nat)
    requires j < |t| && t[j].0 == name
    requires forall i :: 0 <= i < j ==> t[i].0 != name
    ensures Lookup(t, name) == Some(t[j].1)
  {
    if j > 0 {
      forall i | 0 <= i < j - 1 ensures t[1..][i].0 != name {
        assert t[1..][i] == t[i + 1];
      }
      LookupFirst(t[1..], name, j - 1);
    }
  }

  /** A name the table knows is a lower-case name, and its colour has whole
      channels in [0, 255]. */
  lemma NamedIsWellFormed(k: string)
    requires Named(k).Some?
    ensures IsColorName(k) && IsByteColor(Named(k).value)
  {
    LookupFinds(Table, k);
    TableIsWellFormed();
    var i :| 0 <= i < |Table| && Table[i] == (k, Named(k).value);
  }

  /** The lookup ignores case and surrounding white space: a name that lowers to
      a key of the table gives that key's colour however it is padded. */
  lemma NamedColorIgnoresCaseAndSpace(w1: string, name: string, w2: string)
    requires AllSpaces(w1) && AllSpaces(w2)
    requires Named(Lower(name)).Some?
    ensures GetRGB(Css(w1 + name + w2)) == Named(Lower(name))
    ensures IsByteColor(GetRGB(Css(w1 + name + w2)).value)
  {
    NamedIsWellFormed(Lower(name));
    forall k | 0 <= k < |name| ensures !IsSpace(name[k]) && name[k] != '(' && name[k] != '#' {
      assert Lower(name)[k] == LowerChar(name[k]);
      LowerLetterIsNotPunctuation(name[k]);
    }
    TrimPadded(w1, name, w2);
    PaddedHasNoPunctuation(w1, name, w2);
    FallsThroughToName(w1 + name + w2);
  }

  lemma PaddedHasNoPunctuation(w1: string, name: string, w2: string)
    requires AllSpaces(w1) && AllSpaces(w2)
    requires forall k :: 0 <= k < |name| ==> name[k] != '(' && name[k] != '#'
    ensures '(' !in w1 + name + w2 && '#' !in w1 + name + w2
  {
    var s := w1 + name + w2;
    forall k | 0 <= k < |s| ensures s[k] != '(' && s[k] != '#' {
      if k < |w1| { assert s[k] == w1[k]; }
      else if k < |w1| + |name| { assert s[k] == name[k - |w1|]; }
      else { assert s[k] == w2[k - |w1| - |name|]; }
    }
  }

  /** A name that no key of the table matches gives `undefined`. */
  lemma UnknownNameIsUndefined(s: string)
    requires '(' !in s && '#' !in s
    requires forall i :: 0 <= i < |Table| ==> Table[i].0 != Lower(Trim(s))
    ensures GetRGB(Css(s)).None?
  {
    FallsThroughToName(s);
    LookupFinds(Table, Lower(Trim(s)));
  }

  lemma GetRGBHexExample()
    ensures GetRGB(Css("#ff0000")) == Some(Rgb(255.0, 0.0, 0.0))
  {
    assert "#ff0000" == "#" + "ff0000";
    HexSixReadsPairs("ff0000");
  }

  lemma GetRGBShortHexExample()
    ensures GetRGB(Css("#f00")) == Some(Rgb(255.0, 0.0, 0.0))
  {
    assert "#f00" == ['#', 'f', '0', '0'];
    HexThreeDoublesDigits('f', '0', '0');
    assert ['#', 'f', 'f', '0', '0', '0', '0'] == "#ff0000";
    GetRGBHexExample();
  }

  lemma GetRGBDecimalExample(s: string)
    requires s == "rgb(0, 128, 0)"
    ensures GetRGB(Css(s)) == Some(Rgb(0.0, 128.0, 0.0))
  {
    DecimalGroups(s);
    DecimalValueExamples();
  }

  lemma DecimalGroups(s: string)
    requires s == "rgb(0, 128, 0)"
    ensures GetRGB(Css(s)) == Some(Rgb(DecimalValue("0") as real, DecimalValue("128") as real, DecimalValue("0") as real))
  {
    assert s == "rgb(" + "" + "0" + "" + "," + " " + "128" + "" + "," + " " + "0" + "" + ")" + "";
    assert AllSpaces(" ");
    RgbIntReadsGroups(s, "", "0", "", " ", "128", "", " ", "0", "", "");
  }

  lemma DecimalValueExamples()
    ensures DecimalValue("0") == 0 && DecimalValue("128") == 128
  {
    assert "128"[..2] == "12" && "12"[..1] == "1" && "0"[..0] == "";
  }

  lemma GetRGBNameExample()
    ensures GetRGB(Css(" Aqua\t")) == Some(Rgb(0.0, 255.0, 255.0))
  {
    assert Lower("Aqua") == "aqua";
    assert Table[0] == ("aqua", Rgb(0.0, 255.0, 255.0));
    LookupFirst(Table, "aqua", 0);
    NamedColorIgnoresCaseAndSpace(" ", "Aqua", "\t");
    assert " " + "Aqua" + "\t" == " Aqua\t";
  }
}

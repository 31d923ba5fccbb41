/** lib/ffmpeg.js: the shapes `ffmpeg(opts)` accepts, the default output
    path, and the `progress` handler that normalises a progress report and
    writes its one-line summary. */
module Ffmpeg {
  import opened Js

  // --------------------------------------------------------------- options

  /** `Need opts.ffmpeg callback`, and the `TypeError` of reading a field
      of `undefined` or `null`. */
  datatype FfmpegError = NeedCallback | TypeError

  /** Lines 15-21: a string is the input path, a function the callback,
      an object the options; without a truthy `ffmpeg` field the call
      fails before anything runs. Other values have no fields. */
  function NormalizeOptions(v: Value): (r: Result<map<string, Value>, FfmpegError>)
    ensures v.Undefined? || v.Null? ==> r == Err(TypeError)
    ensures r.Ok? <==> v.Fn? || (v.Obj? && Truthy(Field(v.fields, "ffmpeg")))
    ensures r.Ok? ==> "ffmpeg" in r.value && Truthy(r.value["ffmpeg"])
    ensures v.Fn? ==> r == Ok(map["ffmpeg" := v])
    ensures v.Obj? && r.Ok? ==> r.value == v.fields
    ensures !v.Undefined? && !v.Null? && r.Err? ==> r.error == NeedCallback
  {
    var opts := match v
      case Str(_) => Ok(map["input" := v])
      case Fn(_) => Ok(map["ffmpeg" := v])
      case Obj(m) => Ok(m)
      case Undefined => Err(TypeError)
      case Null => Err(TypeError)
      case _ => Ok(map[]);
    match opts
    case Err(e) => Err(e)
    case Ok(m) => if Truthy(Field(m, "ffmpeg")) then Ok(m) else Err(NeedCallback)
  }

  /** A bare input path never runs: it names no callback. */
  lemma PathAloneNeedsCallback(path: string)
    ensures NormalizeOptions(Str(path)) == Err(NeedCallback)
  {
  }

  /** `String(opts.input)` for a path or an omitted one. */
  function InputText(input: Option<string>): string
  {
    match input case Some(s) => s case None => "undefined"
  }

  /** Lines 28-32: the output the callback declared when it is a non-empty
      path, otherwise `input + '_compressed'`. */
  function OutputPath(declared: Option<string>, input: Option<string>): (r: string)
    ensures r != ""
    ensures declared.Some? && declared.value != "" ==> r == declared.value
    ensures !(declared.Some? && declared.value != "") ==>
      |r| >= 11 && r[..|r| - 11] == InputText(input) && r[|r| - 11..] == "_compressed"
  {
    if declared.Some? && declared.value != "" then declared.value else InputText(input) + "_compressed"
  }

  /** Two inputs given no declared output never share the default one. */
  lemma DefaultOutputsDiffer(a: string, b: string)
    requires a != b
    ensures OutputPath(None, Some(a)) != OutputPath(None, Some(b))
  {
  }

  // -------------------------------------------------------------- numbers

  /** A JavaScript number as far as the handler computes with it. */
  datatype Number = Finite(x: real) | NaN

  function Add(a: Number, b: Number): (r: Number)
    ensures r.Finite? <==> a.Finite? && b.Finite?
  {
    if a.Finite? && b.Finite? then Finite(a.x + b.x) else NaN
  }

  function Scale(a: Number, k: real): (r: Number)
    ensures r.Finite? <==> a.Finite?
  {
    if a.Finite? then Finite(a.x * k) else NaN
  }

  function Pow(b: nat, e: nat): (r: nat)
    ensures r >= 1 || b == 0
  {
    if e == 0 then 1 else b * Pow(b, e - 1)
  }

  predicate AllDigits(s: string)
  {
    forall i :: 0 <= i < |s| ==> IsDigit(s[i])
  }

  /** The index of the first '.' in `s`. */
  function DotIndex(s: string): (r: Option<nat>)
    ensures r.None? <==> '.' !in s
    ensures r.Some? ==> r.value < |s| && s[r.value] == '.' && '.' !in s[..r.value]
  {
    if s == [] then None
    else if s[0] == '.' then Some(0)
    else
      var r := DotIndex(s[1..]);
      assert s == [s[0]] + s[1..];
      match r
      case None => None
      case Some(k) =>
        assert s[..k + 1] == [s[0]] + s[1..][..k];
        Some(k + 1)
  }

  /** `Number(s)` for the texts a timemark is made of: decimal digits with
      at most one point (`"5."` and `".5"` included), and the empty text,
      which is 0. Every other text is NaN here. */
  function ParseDecimal(s: string): Number
  {
    if s == "" then Finite(0.0)
    else
      match DotIndex(s)
      case None => if AllDigits(s) then Finite(ParseNat(s) as real) else NaN
      case Some(k) =>
        var whole := s[..k];
        var fraction := s[k + 1..];
        if |s| > 1 && AllDigits(whole) && AllDigits(fraction) then
          Finite(ParseNat(whole) as real + ParseNat(fraction) as real / Pow(10, |fraction|) as real)
        else NaN
  }

  /** `Number()` of a field is never negative. */
  lemma ParseDecimalNonNegative(s: string)
    ensures ParseDecimal(s).Finite? ==> ParseDecimal(s).x >= 0.0
  {
    if s != "" && DotIndex(s).Some? && ParseDecimal(s).Finite? {
      var k := DotIndex(s).value;
      var fraction := s[k + 1..];
      var p := Pow(10, |fraction|) as real;
      assert p >= 1.0;
      assert ParseNat(fraction) as real / p >= 0.0;
    }
  }

  /** A digit text gives its value, and a lone point is NaN. */
  lemma ParseDecimalDigits(s: string)
    ensures AllDigits(s) ==> ParseDecimal(s) == Finite(ParseNat(s) as real)
    ensures s == "." ==> ParseDecimal(s) == NaN
  {
    if AllDigits(s) {
      assert forall i :: 0 <= i < |s| ==> s[i] != '.';
    }
  }

  /** Only digits and points give a number. */
  lemma ParseDecimalChars(s: string)
    ensures ParseDecimal(s).Finite? ==> forall i :: 0 <= i < |s| ==> IsDigit(s[i]) || s[i] == '.'
  {
    if s != "" && DotIndex(s).Some? {
      var k := DotIndex(s).value;
      var whole := s[..k];
      var fraction := s[k + 1..];
      assert forall i :: 0 <= i < |s| ==> (i < k && s[i] == whole[i]) || i == k || (i > k && s[i] == fraction[i - k - 1]);
    }
  }

  /** The decimal text of a natural number reads back as that number. */
  lemma ParseDecimalOfNat(n: nat)
    ensures ParseDecimal(NatToString(n)) == Finite(n as real)
  {
    var s := NatToString(n);
    NoDotInDigits(s);
    ParseNatToString(n);
  }

  lemma NoDotInDigits(s: string)
    requires AllDigits(s)
    ensures '.' !in s
  {
  }

  /** In digits followed by a point, the point is the first one. */
  lemma {:induction false} DotAfterDigits(w: string, rest: string)
    requires AllDigits(w)
    ensures DotIndex(w + "." + rest) == Some(|w|)
    decreases |w|
  {
    var s := w + "." + rest;
    if w != [] {
      assert s[1..] == w[1..] + "." + rest;
      DotAfterDigits(w[1..], rest);
    }
  }

  /** A number with one decimal reads back as that number. */
  lemma ParseDecimalOfTenths(q: nat, d: nat)
    requires d < 10
    ensures ParseDecimal(NatToString(q) + "." + [DigitChar(d)]) == Finite(q as real + d as real / 10.0)
  {
    var w := NatToString(q);
    var f := [DigitChar(d)];
    DotAfterDigits(w, f);
    SliceConcat(w, f);
    ParseDecimalAtDot(w + "." + f, |w|);
    ParseNatToString(q);
    ParseNatDigit(d);
    assert Pow(10, 1) == 10;
  }

  lemma SliceConcat(w: string, f: string)
    ensures (w + "." + f)[..|w|] == w && (w + "." + f)[|w| + 1..] == f
  {
  }

  lemma ParseDecimalAtDot(s: string, k: nat)
    requires |s| > 1 && DotIndex(s) == Some(k)
    requires AllDigits(s[..k]) && AllDigits(s[k + 1..])
    ensures ParseDecimal(s) == Finite(ParseNat(s[..k]) as real + ParseNat(s[k + 1..]) as real / Pow(10, |s[k + 1..]|) as real)
  {
  }

  lemma ParseNatDigit(d: nat)
    requires d < 10
    ensures ParseNat([DigitChar(d)]) == d
  {
    assert [DigitChar(d)][..0] == [];
  }

  // ------------------------------------------------------------- timemark

  /** The value of sexagesimal components, most significant first:
      `H:M:S` is `(H * 60 + M) * 60 + S`. */
  function Sexagesimal(cs: seq<Number>): Number
    decreases |cs|
  {
    if cs == [] then Finite(0.0) else Add(Scale(Sexagesimal(cs[..|cs| - 1]), 60.0), cs[|cs| - 1])
  }

  /** The sum is a number exactly when every component is, and it is never
      negative when no component is. */
  lemma {:induction false} SexagesimalFinite(cs: seq<Number>)
    ensures Sexagesimal(cs).Finite? <==> forall i :: 0 <= i < |cs| ==> cs[i].Finite?
    ensures (forall i :: 0 <= i < |cs| ==> cs[i].Finite? && cs[i].x >= 0.0) ==> Sexagesimal(cs).Finite? && Sexagesimal(cs).x >= 0.0
    decreases |cs|
  {
    if cs != [] {
      var init := cs[..|cs| - 1];
      SexagesimalFinite(init);
      assert forall i :: 0 <= i < |init| ==> init[i] == cs[i];
    }
  }

  function Parsed(parts: seq<string>): (r: seq<Number>)
    ensures |r| == |parts| && forall i :: 0 <= i < |parts| ==> r[i] == ParseDecimal(parts[i])
  {
    seq(|parts|, i requires 0 <= i < |parts| => ParseDecimal(parts[i]))
  }

  /** The number of seconds a timemark stands for (NaN when a component
      is not a number). */
  function TimemarkValue(timemark: string): (r: Number)
    ensures r.Finite? ==> r.x >= 0.0
  {
    SexagesimalOfParsed(Split(timemark, ':'));
    Sexagesimal(Parsed(Split(timemark, ':')))
  }

  /** A timemark has a value exactly when each of its components does. */
  lemma TimemarkFinite(timemark: string, parts: seq<string>)
    requires parts == Split(timemark, ':')
    ensures TimemarkValue(timemark).Finite? <==> forall i :: 0 <= i < |parts| ==> ParseDecimal(parts[i]).Finite?
  {
    SexagesimalOfParsed(parts);
  }

  lemma SexagesimalOfParsed(parts: seq<string>)
    ensures Sexagesimal(Parsed(parts)).Finite? <==> forall i :: 0 <= i < |parts| ==> ParseDecimal(parts[i]).Finite?
    ensures Sexagesimal(Parsed(parts)).Finite? ==> Sexagesimal(Parsed(parts)).x >= 0.0
  {
    var cs := Parsed(parts);
    SexagesimalFinite(cs);
    forall i | 0 <= i < |parts| {
      ParseDecimalNonNegative(parts[i]);
    }
    assert forall i :: 0 <= i < |cs| ==> cs[i] == ParseDecimal(parts[i]);
  }

  /** A component in front weighs `60^k`, `k` the number of components
      after it: the value is the sum of `c_i * 60^i`, counted from the right. */
  lemma {:induction false} SexagesimalPrepend(c: Number, rest: seq<Number>)
    ensures Sexagesimal([c] + rest) == Add(Scale(c, Pow(60, |rest|) as real), Sexagesimal(rest))
    decreases |rest|
  {
    var s := [c] + rest;
    if rest == [] {
      assert s[..0] == [];
    } else {
      var init, last := rest[..|rest| - 1], rest[|rest| - 1];
      assert s[..|s| - 1] == [c] + init && s[|s| - 1] == last;
      SexagesimalPrepend(c, init);
      var p := Pow(60, |init|) as real;
      assert Pow(60, |rest|) as real == 60.0 * p;
      assert Sexagesimal(rest) == Add(Scale(Sexagesimal(init), 60.0), last);
      assert Sexagesimal(s) == Add(Scale(Sexagesimal([c] + init), 60.0), last);
      PrependArith(c, Sexagesimal(init), last, p);
    }
  }

  /** The arithmetic of one step of SexagesimalPrepend. */
  lemma PrependArith(c: Number, init: Number, last: Number, p: real)
    ensures Add(Scale(Add(Scale(c, p), init), 60.0), last) == Add(Scale(c, 60.0 * p), Add(Scale(init, 60.0), last))
  {
    if c.Finite? && init.Finite? && last.Finite? {
      assert (c.x * p + init.x) * 60.0 + last.x == c.x * (60.0 * p) + (init.x * 60.0 + last.x);
    }
  }

  /** Parsing a component in front parses it in front. */
  lemma ParsedPrepend(c: string, rest: seq<string>)
    ensures Parsed([c] + rest) == [ParseDecimal(c)] + Parsed(rest)
  {
  }

  /** One step of the loop below: the component at `k` joins the ones
      after it with weight `60^(|parts| - 1 - k)`. */
  lemma SexagesimalStep(parts: seq<string>, k: nat)
    requires k < |parts|
    ensures Sexagesimal(Parsed(parts[k..])) ==
      Add(Sexagesimal(Parsed(parts[k + 1..])), Scale(ParseDecimal(parts[k]), Pow(60, |parts| - 1 - k) as real))
  {
    var rest := parts[k + 1..];
    assert parts[k..] == [parts[k]] + rest;
    assert |Parsed(rest)| == |parts| - 1 - k;
    ParsedPrepend(parts[k], rest);
    SexagesimalPrepend(ParseDecimal(parts[k]), Parsed(rest));
  }

  /** `s.reverse()`. */
  function Reversed(s: seq<string>): (r: seq<string>)
    ensures |r| == |s| && forall i :: 0 <= i < |s| ==> r[i] == s[|s| - 1 - i]
  {
    seq(|s|, i requires 0 <= i < |s| => s[|s| - 1 - i])
  }

  /** Lines 63-68: the components from the right, each weighed by
      `60 ** i`, added up. */
  method TimemarkSeconds(timemark: string) returns (duration: Number)
    ensures duration == TimemarkValue(timemark)
  {
    var parts := Split(timemark, ':');
    var time := Reversed(parts);
    duration := Finite(0.0);
    for i := 0 to |time|
      invariant duration == Sexagesimal(Parsed(parts[|parts| - i..]))
    {
      SexagesimalStep(parts, |parts| - 1 - i);
      duration := Add(duration, Scale(ParseDecimal(time[i]), Pow(60, i) as real));
    }
    assert parts[0..] == parts;
  }

  lemma SexagesimalThree(a: Number, b: Number, c: Number)
    requires a.Finite? && b.Finite? && c.Finite?
    ensures Sexagesimal([a, b, c]) == Finite(3600.0 * a.x + 60.0 * b.x + c.x)
  {
    assert [a, b, c][..2] == [a, b];
    assert [a, b][..1] == [a];
    assert [a][..0] == [];
    assert Sexagesimal([a]) == Finite(a.x);
    assert Sexagesimal([a, b]) == Finite(a.x * 60.0 + b.x);
    assert (a.x * 60.0 + b.x) * 60.0 + c.x == 3600.0 * a.x + 60.0 * b.x + c.x;
  }

  /** `H:M:S` is `3600 H + 60 M + S`. */
  lemma TimemarkHoursMinutesSeconds(h: string, m: string, s: string)
    requires ':' !in h && ':' !in m && ':' !in s
    requires ParseDecimal(h).Finite? && ParseDecimal(m).Finite? && ParseDecimal(s).Finite?
    ensures TimemarkValue(h + ":" + m + ":" + s) ==
      Finite(3600.0 * ParseDecimal(h).x + 60.0 * ParseDecimal(m).x + ParseDecimal(s).x)
  {
    var parts := [h, m, s];
    JoinThree(h, m, s, [':']);
    SplitJoin(parts, ':');
    assert Parsed(parts) == [ParseDecimal(h), ParseDecimal(m), ParseDecimal(s)];
    SexagesimalThree(ParseDecimal(h), ParseDecimal(m), ParseDecimal(s));
  }

  /** A single component is its own value. */
  lemma TimemarkSingle(c: string)
    requires ':' !in c
    ensures TimemarkValue(c) == ParseDecimal(c)
  {
    SplitPiece(c, ':');
    var ns := Parsed([c]);
    assert ns == [ParseDecimal(c)] && ns[..0] == [];
    assert Sexagesimal(ns) == Add(Scale(Finite(0.0), 60.0), ns[0]);
  }

  lemma ParseDecimalZero()
    ensures ParseDecimal("0") == Finite(0.0)
  {
    ParseDecimalOfNat(0);
    assert NatToString(0) == "0";
  }

  /** A component in front of a timemark weighs `60^k`, `k` the number of
      components of the rest. */
  lemma TimemarkPrepend(a: string, t: string)
    requires ':' !in a
    ensures TimemarkValue(a + [':'] + t) ==
      Add(Scale(ParseDecimal(a), Pow(60, |Split(t, ':')|) as real), TimemarkValue(t))
  {
    var ps := Split(t, ':');
    SplitBeforeSeparator(a, ':', t);
    ParsedPrepend(a, ps);
    SexagesimalPrepend(ParseDecimal(a), Parsed(ps));
  }

  /** A leading `0:` changes nothing. */
  lemma TimemarkLeadingZero(t: string)
    ensures TimemarkValue("0:" + t) == TimemarkValue(t)
  {
    assert "0:" + t == "0" + [':'] + t;
    TimemarkPrepend("0", t);
    ParseDecimalZero();
  }

  // -------------------------------------------------------------- percent

  function Abs(x: real): real
  {
    if x < 0.0 then -x else x
  }

  /** The tenths `x.toFixed(1)` writes: `|x| * 10` rounded, halves upwards. */
  function Tenths(x: real): nat
  {
    var t := (10.0 * Abs(x) + 0.5).Floor;
    assert t >= 0;
    t
  }

  /** `Number(x.toFixed(1))`. */
  function FixedValue(x: real): (r: real)
    ensures x >= 0.0 ==> r >= 0.0
    ensures x < 0.0 ==> r <= 0.0
    ensures (10.0 * r).Floor as real == 10.0 * r
  {
    var t := Tenths(x);
    var n: int := if x < 0.0 then -(t as int) else t;
    var r := n as real / 10.0;
    assert 10.0 * r == n as real;
    assert (n as real).Floor == n;
    r
  }

  /** `x.toFixed(1)`. */
  function FixedText(x: real): (r: string)
    ensures |r| >= 3 && r[|r| - 2] == '.' && IsDigit(r[|r| - 1])
    ensures (r[0] == '-') <==> x < 0.0
  {
    (if x < 0.0 then "-" else "") + NatToString(Tenths(x) / 10) + "." + [DigitChar(Tenths(x) % 10)]
  }

  /** The stored percent is within half a tenth of the reported one, and
      formatting it once more gives the same value. */
  lemma FixedRounding(x: real)
    ensures Abs(FixedValue(x) - x) <= 0.05
    ensures FixedValue(FixedValue(x)) == FixedValue(x)
  {
    var n := Tenths(x);
    assert n as real <= 10.0 * Abs(x) + 0.5 < n as real + 1.0;
    var v := FixedValue(x);
    assert Abs(v) == n as real / 10.0;
    assert 10.0 * Abs(v) + 0.5 == n as real + 0.5;
    assert Tenths(v) == n;
  }

  /** The percent text reads back as the stored percent (without its sign). */
  lemma FixedTextReadsBack(x: real)
    requires x >= 0.0
    ensures ParseDecimal(FixedText(x)) == Finite(FixedValue(x))
  {
    var n := Tenths(x);
    ParseDecimalOfTenths(n / 10, n % 10);
    assert "" + NatToString(n / 10) == NatToString(n / 10);
    assert (n / 10) as real + (n % 10) as real / 10.0 == n as real / 10.0;
  }

  // ----------------------------------------------------------------- kbps

  /** `parseInt(x)` of a number: its integer part, truncated toward zero. */
  function Truncate(x: real): (r: int)
    ensures Abs(r as real) <= Abs(x) < Abs(r as real) + 1.0
    ensures x >= 0.0 ==> r >= 0
    ensures x <= 0.0 ==> r <= 0
  {
    if x >= 0.0 then x.Floor else -((-x).Floor)
  }

  // ------------------------------------------------------ the progress line

  /** A field that is present and truthy (not 0). */
  predicate IsSet(v: Option<real>)
  {
    v.Some? && v.value != 0.0
  }

  predicate HasTimemark(t: Option<string>)
  {
    t.Some? && t.value != ""
  }

  /** `progress.percent` after lines 52-61. */
  function NewPercent(p: Option<real>): (r: Option<real>)
    ensures r.Some? <==> p.Some?
    ensures IsSet(p) ==> (10.0 * r.value).Floor as real == 10.0 * r.value
    ensures IsSet(p) && p.value >= 10.0 ==> r.value == r.value.Floor as real
  {
    if !IsSet(p) then p
    else if p.value < 10.0 then Some(FixedValue(p.value))
    else
      var f := p.value.Floor;
      assert 10.0 * (f as real) == (10 * f) as real;
      Some(f as real)
  }

  /** The stored percent stays close to the reported one: within half a
      tenth below 10, and its integer part from 10 on. An unset percent is
      left as it is. */
  lemma NewPercentRounds(p: Option<real>)
    ensures !IsSet(p) ==> NewPercent(p) == p
    ensures IsSet(p) && p.value < 10.0 ==> Abs(NewPercent(p).value - p.value) <= 0.05
    ensures IsSet(p) && p.value >= 10.0 ==>
      NewPercent(p).value <= p.value < NewPercent(p).value + 1.0 && NewPercent(p).value == NewPercent(p).value.Floor as real
  {
    if IsSet(p) && p.value < 10.0 {
      FixedRounding(p.value);
    }
  }

  /** `progress.currentKbps` after lines 73-76. */
  function NewKbps(k: Option<real>): (r: Option<real>)
    ensures !IsSet(k) ==> r == k
    ensures IsSet(k) ==> r.Some? && r.value == r.value.Floor as real
    ensures IsSet(k) ==> Abs(r.value) <= Abs(k.value) < Abs(r.value) + 1.0
    ensures IsSet(k) && k.value >= 0.0 ==> r.value >= 0.0
    ensures IsSet(k) && k.value <= 0.0 ==> r.value <= 0.0
  {
    if IsSet(k) then Some(Truncate(k.value) as real) else k
  }

  /** The summary's part for a set percent: one decimal below 10, the
      integer part from 10 on. */
  function PercentText(p: real): (r: string)
    ensures |r| >= 2 && r[|r| - 1] == '%'
    ensures p < 10.0 ==> |r| >= 4 && r[|r| - 3] == '.'
    ensures (r[0] == '-') <==> p < 0.0 && Tenths(p) != 0
  {
    if p < 10.0 then FixedText(FixedValue(p)) + "%" else IntToString(p.Floor) + "%"
  }

  /** The summary's part for a set bit rate. */
  function KbpsText(k: real): (r: string)
    ensures |r| >= 6 && r[|r| - 5..] == " kbps"
    ensures (r[0] == '-') <==> k <= -1.0
  {
    IntToString(Truncate(k)) + " kbps"
  }

  /** The parts of the summary, in the order percent, timemark, kbps;
      each one only when its field is set. */
  function ProgressParts(p: Option<real>, t: Option<string>, k: Option<real>): (r: seq<string>)
    ensures |r| == (if IsSet(p) then 1 else 0) + (if HasTimemark(t) then 1 else 0) + (if IsSet(k) then 1 else 0)
    ensures IsSet(p) ==> r[0] == PercentText(p.value)
    ensures HasTimemark(t) ==> r[if IsSet(p) then 1 else 0] == t.value
    ensures IsSet(k) ==> r[|r| - 1] == KbpsText(k.value)
  {
    (if IsSet(p) then [PercentText(p.value)] else [])
    + (if HasTimemark(t) then [t.value] else [])
    + (if IsSet(k) then [KbpsText(k.value)] else [])
  }

  /** The bit rate in the summary reads back as the stored, truncated
      bit rate. */
  lemma KbpsTextReadsBack(k: real)
    requires k >= 0.0
    ensures var s := KbpsText(k);
      var digits := s[..|s| - 5];
      (forall i :: 0 <= i < |digits| ==> IsDigit(digits[i])) && ParseNat(digits) == Truncate(k)
  {
    var s := KbpsText(k);
    assert s[..|s| - 5] == NatToString(Truncate(k));
    ParseNatToString(Truncate(k));
  }

  /** The summary is made of one part per field, each determined by that
      field alone, concatenated in the order percent, timemark, kbps. */
  lemma ProgressPartsDecompose(p: Option<real>, t: Option<string>, k: Option<real>)
    ensures ProgressParts(p, t, k) == ProgressParts(p, None, None) + ProgressParts(None, t, None) + ProgressParts(None, None, k)
    ensures ProgressParts(p, None, None) == (if IsSet(p) then [PercentText(p.value)] else [])
    ensures ProgressParts(None, t, None) == (if HasTimemark(t) then [t.value] else [])
    ensures ProgressParts(None, None, k) == (if IsSet(k) then [KbpsText(k.value)] else [])
  {
    var a := if IsSet(p) then [PercentText(p.value)] else [];
    var b := if HasTimemark(t) then [t.value] else [];
    var c := if IsSet(k) then [KbpsText(k.value)] else [];
    SummaryOfParts(p, t, k, a, b, c);
    SummaryOfParts(p, None, None, a, [], []);
    SummaryOfParts(None, t, None, [], b, []);
    SummaryOfParts(None, None, k, [], [], c);
    assert a + [] + [] == a && [] + b + [] == b && [] + [] + c == c;
  }

  /** With all three fields set, the summary is `<percent> <timemark> <kbps> kbps`. */
  lemma ProgressLineAll(p: real, t: string, k: real)
    requires p != 0.0 && t != "" && k != 0.0
    ensures Join(ProgressParts(Some(p), Some(t), Some(k)), " ") == PercentText(p) + " " + t + " " + KbpsText(k)
  {
    var parts := ProgressParts(Some(p), Some(t), Some(k));
    assert parts == [PercentText(p), t, KbpsText(k)];
    assert parts[..2] == [PercentText(p), t];
    assert parts[..2][..1] == [PercentText(p)];
  }

  /** A field that is not set contributes nothing, and the others keep
      their order. */
  lemma ProgressLineSkips(p: Option<real>, t: Option<string>, k: Option<real>)
    ensures !IsSet(p) ==> ProgressParts(p, t, k) == ProgressParts(None, t, k)
    ensures !HasTimemark(t) ==> ProgressParts(p, t, k) == ProgressParts(p, None, k)
    ensures !IsSet(k) ==> ProgressParts(p, t, k) == ProgressParts(p, t, None)
    ensures !IsSet(p) && !HasTimemark(t) && !IsSet(k) ==> Join(ProgressParts(p, t, k), " ") == ""
    ensures !IsSet(p) && HasTimemark(t) && !IsSet(k) ==> Join(ProgressParts(p, t, k), " ") == t.value
  {
  }

  /** A positive percent is shown as the value that is stored back into the
      report, followed by `%`. */
  lemma PercentTextReadsBack(p: real)
    requires p > 0.0
    ensures var s := PercentText(p);
      |s| >= 1 && s[|s| - 1] == '%' && ParseDecimal(s[..|s| - 1]) == Finite(NewPercent(Some(p)).value)
  {
    var s := PercentText(p);
    if p < 10.0 {
      var v := FixedValue(p);
      assert v >= 0.0;
      FixedTextReadsBack(v);
      FixedRounding(p);
      assert s[..|s| - 1] == FixedText(v);
    } else {
      assert p.Floor >= 10;
      ParseDecimalOfNat(p.Floor);
      assert s[..|s| - 1] == NatToString(p.Floor);
    }
  }

  /** The parts `Handle` collects field by field make up the summary. */
  lemma SummaryOfParts(p: Option<real>, t: Option<string>, k: Option<real>, a: seq<string>, b: seq<string>, c: seq<string>)
    requires a == (if IsSet(p) then [PercentText(p.value)] else [])
    requires b == (if HasTimemark(t) then [t.value] else [])
    requires c == (if IsSet(k) then [KbpsText(k.value)] else [])
    ensures a + b + c == ProgressParts(p, t, k)
  {
  }

  /** The progress report fluent-ffmpeg hands to the handler. A None field
      is one the report does not have. `duration` and `text` (the
      `string` field) are the ones the handler adds. */
  class Progress {
    var percent: Option<real>
    var currentFps: Option<real>
    var currentKbps: Option<real>
    var targetSize: Option<real>
    var timemark: Option<string>
    var frames: Option<real>
    var duration: Option<Number>
    var text: Option<string>

    constructor(percent: Option<real>, currentFps: Option<real>, currentKbps: Option<real>,
                targetSize: Option<real>, timemark: Option<string>, frames: Option<real>)
      ensures this.percent == percent && this.currentFps == currentFps && this.currentKbps == currentKbps
      ensures this.targetSize == targetSize && this.timemark == timemark && this.frames == frames
      ensures duration.None? && text.None?
    {
      this.percent := percent;
      this.currentFps := currentFps;
      this.currentKbps := currentKbps;
      this.targetSize := targetSize;
      this.timemark := timemark;
      this.frames := frames;
      duration := None;
      text := None;
    }

    /** Lines 52-61: the percent, rounded in place, and its part. */
    method HandlePercent() returns (part: seq<string>)
      modifies this`percent
      ensures percent == NewPercent(old(percent))
      ensures part == if IsSet(old(percent)) then [PercentText(old(percent).value)] else []
    {
      part := [];
      if IsSet(percent) {
        var p := percent.value;
        if p < 10.0 {
          percent := Some(FixedValue(p));
          part := [FixedText(percent.value) + "%"];
        } else {
          var whole := p.Floor;
          percent := Some(whole as real);
          part := [IntToString(whole) + "%"];
        }
      }
    }

    /** Lines 62-72: the duration of the timemark, and its part. */
    method HandleTimemark() returns (part: seq<string>)
      modifies this`duration
      ensures HasTimemark(timemark) ==> duration == Some(TimemarkValue(timemark.value))
      ensures !HasTimemark(timemark) ==> duration == old(duration)
      ensures part == if HasTimemark(timemark) then [timemark.value] else []
    {
      part := [];
      if HasTimemark(timemark) {
        var seconds := TimemarkSeconds(timemark.value);
        duration := Some(seconds);
        part := [timemark.value];
      }
    }

    /** Lines 73-76: the bit rate, truncated in place, and its part. */
    method HandleKbps() returns (part: seq<string>)
      modifies this`currentKbps
      ensures currentKbps == NewKbps(old(currentKbps))
      ensures part == if IsSet(old(currentKbps)) then [KbpsText(old(currentKbps).value)] else []
    {
      part := [];
      if IsSet(currentKbps) {
        var kbps := Truncate(currentKbps.value);
        currentKbps := Some(kbps as real);
        part := [IntToString(kbps) + " kbps"];
      }
    }

    /** Lines 51-82: normalise the report in place and write its summary.
        Whether the summary then goes to `onProgress` or to stdout is not
        part of the model. */
    method Handle()
      modifies this
      ensures percent == NewPercent(old(percent))
      ensures currentKbps == NewKbps(old(currentKbps))
      ensures HasTimemark(old(timemark)) ==> duration == Some(TimemarkValue(old(timemark).value))
      ensures !HasTimemark(old(timemark)) ==> duration == old(duration)
      ensures text == Some(Join(ProgressParts(old(percent), old(timemark), old(currentKbps)), " "))
      ensures timemark == old(timemark) && currentFps == old(currentFps)
      ensures targetSize == old(targetSize) && frames == old(frames)
    {
      ghost var p0, t0, k0 := percent, timemark, currentKbps;
      var percentPart := HandlePercent();
      assert timemark == t0 && currentKbps == k0;
      var timemarkPart := HandleTimemark();
      assert currentKbps == k0;
      var kbpsPart := HandleKbps();
      SummaryOfParts(p0, t0, k0, percentPart, timemarkPart, kbpsPart);
      var summary := percentPart + timemarkPart + kbpsPart;
      text := Some(Join(summary, " "));
    }
  }
}

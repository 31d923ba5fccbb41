/** lib/helpers.js: the argument records `concat` and `concatDemux` hand to
    `ffmpeg`, the text of the concat-demuxer list file, and the folds over
    the inputs' metadata. */
module Helpers {
  import opened Js
  import Probe

  /** `TypeError`: reading a property of `undefined` or `null`, or calling
      a method a value does not have. */
  datatype HelperError = TypeError

  // ---------------------------------------------------------------- concat

  /** `opts.inputs.length` for the values the model covers: an array gives
      its count, a string its length, `undefined` and `null` throw, any
      other value has no length (None, written `undefined`). */
  function InputsLength(v: Value): (r: Result<Option<nat>, HelperError>)
    ensures r.Err? <==> v.Undefined? || v.Null?
    ensures v.Arr? ==> r == Ok(Some(|v.items|))
    ensures v.Str? ==> r == Ok(Some(|v.s|))
  {
    match v
    case Undefined => Err(TypeError)
    case Null => Err(TypeError)
    case Arr(items) => Ok(Some(|items|))
    case Str(s) => Ok(Some(|s|))
    case _ => Ok(None)
  }

  /** The text of line 19 for a length and the `audio` option. */
  function ConcatFilter(length: Option<nat>, audio: Value): (f: string)
    ensures |f| >= 17 && f[..9] == "concat=n=" && f[|f| - 8..|f| - 1] == ":v=1:a="
    ensures f[|f| - 1] == (if audio != Bool(false) then '1' else '0')
    ensures length.Some? ==> f[9..|f| - 8] == NatToString(length.value)
    ensures length.None? ==> f[9..|f| - 8] == "undefined"
  {
    var count := match length case Some(n) => NatToString(n) case None => "undefined";
    var tail := ":v=1:a=" + (if audio != Bool(false) then "1" else "0");
    ConcatSlices("concat=n=", count, tail);
    assert tail[..7] == ":v=1:a=";
    "concat=n=" + count + tail
  }

  /** The record `concat(opts)` passes to `ffmpeg`: every caller option
      plus `filterComplex`. */
  function ConcatArgs(opts: map<string, Value>): (r: Result<map<string, Value>, HelperError>)
    ensures r.Err? <==> Field(opts, "inputs").Undefined? || Field(opts, "inputs").Null?
    ensures r.Ok? ==> r.value.Keys == opts.Keys + {"filterComplex"}
    ensures r.Ok? ==> forall k :: k in opts && k != "filterComplex" ==> r.value[k] == opts[k]
    ensures r.Ok? ==> r.value["filterComplex"] == Str(ConcatFilter(InputsLength(Field(opts, "inputs")).value, Field(opts, "audio")))
  {
    match InputsLength(Field(opts, "inputs"))
    case Err(e) => Err(e)
    case Ok(length) => Ok(opts["filterComplex" := Str(ConcatFilter(length, Field(opts, "audio")))])
  }

  /** The filter text read back: the number of inputs and whether audio is
      concatenated. */
  function ParseConcatFilter(f: string): Option<(nat, bool)>
  {
    if |f| < 17 || f[..9] != "concat=n=" || f[|f| - 8..|f| - 1] != ":v=1:a=" || f[|f| - 1] !in {'0', '1'} then None
    else
      var digits := f[9..|f| - 8];
      if forall i :: 0 <= i < |digits| ==> IsDigit(digits[i]) then Some((ParseNat(digits), f[|f| - 1] == '1'))
      else None
  }

  /** The concat filter names the number of inputs and the audio switch
      unambiguously: `a=0` exactly when `audio === false`. */
  lemma ConcatFilterRoundTrip(n: nat, audio: Value)
    ensures ParseConcatFilter(ConcatFilter(Some(n), audio)) == Some((n, audio != Bool(false)))
  {
    var f := ConcatFilter(Some(n), audio);
    var digits := NatToString(n);
    var tail := ":v=1:a=" + (if audio != Bool(false) then "1" else "0");
    assert f == "concat=n=" + digits + tail;
    assert f[..9] == "concat=n=";
    assert f[9..|f| - 8] == digits;
    assert f[|f| - 8..|f| - 1] == ":v=1:a=";
    ParseNatToString(n);
  }

  // ------------------------------------------------------------ concatDemux

  /** `inputs.map(file => "file '" + file + "'")`. */
  function ListLines(inputs: seq<string>): (r: seq<string>)
    ensures |r| == |inputs|
    ensures forall i :: 0 <= i < |inputs| ==> r[i] == "file '" + inputs[i] + "'"
  {
    seq(|inputs|, i requires 0 <= i < |inputs| => "file '" + inputs[i] + "'")
  }

  /** The text written to the list file: the lines joined by newlines. */
  function ListText(inputs: seq<string>): (r: string)
    ensures inputs == [] ==> r == ""
    ensures |inputs| == 1 ==> r == "file '" + inputs[0] + "'"
    ensures inputs != [] ==> |r| >= 7 && r[..6] == "file '" && r[|r| - 1] == '\''
  {
    if inputs == [] then Join(ListLines(inputs), ['\n'])
    else JoinEnds(ListLines(inputs), ['\n']); Join(ListLines(inputs), ['\n'])
  }

  /** One line of the list file read back: the path between `file '` and
      the closing quote. */
  function Unquote(line: string): Option<string>
  {
    if |line| >= 7 && line[..6] == "file '" && line[|line| - 1] == '\'' then Some(line[6..|line| - 1]) else None
  }

  function UnquoteAll(lines: seq<string>): Option<seq<string>>
  {
    if lines == [] then Some([])
    else
      match (Unquote(lines[0]), UnquoteAll(lines[1..]))
      case (Some(p), Some(ps)) => Some([p] + ps)
      case _ => None
  }

  /** The list text read back: one path per line. */
  function ParseList(text: string): Option<seq<string>>
  {
    if text == "" then Some([]) else UnquoteAll(Split(text, '\n'))
  }

  lemma {:induction false} UnquoteAllLines(inputs: seq<string>)
    ensures UnquoteAll(ListLines(inputs)) == Some(inputs)
    decreases |inputs|
  {
    if inputs != [] {
      var line := "file '" + inputs[0] + "'";
      assert line[..6] == "file '" && line[6..|line| - 1] == inputs[0];
      assert ListLines(inputs)[1..] == ListLines(inputs[1..]);
      UnquoteAllLines(inputs[1..]);
      assert [inputs[0]] + inputs[1..] == inputs;
    }
  }

  /** The list text holds one `file '<path>'` line per input, in order,
      with nothing after the last: reading it back line by line gives the
      inputs, as long as no path holds a newline (paths are not escaped). */
  lemma ListTextRoundTrip(inputs: seq<string>)
    requires forall i :: 0 <= i < |inputs| ==> '\n' !in inputs[i]
    ensures ParseList(ListText(inputs)) == Some(inputs)
  {
    if inputs != [] {
      var lines := ListLines(inputs);
      assert forall i :: 0 <= i < |lines| ==> '\n' !in lines[i] by {
        forall i | 0 <= i < |lines| ensures '\n' !in lines[i] {
          assert lines[i] == "file '" + inputs[i] + "'";
        }
      }
      SplitJoin(lines, '\n');
      assert |lines[0]| >= 7;
      UnquoteAllLines(inputs);
    }
  }

  /** `xs.reduce((p, c) => p + c || 0, 0)` where None is a value that is not
      a number: the sum becomes NaN, and `|| 0` turns it into 0. */
  function Total(xs: seq<Option<real>>): (r: real)
    ensures xs == [] || xs[|xs| - 1].None? ==> r == 0.0
    ensures (forall i :: 0 <= i < |xs| ==> xs[i].Some? ==> xs[i].value >= 0.0) ==> r >= 0.0
    decreases |xs|
  {
    if xs == [] then 0.0
    else
      var p := Total(xs[..|xs| - 1]);
      match xs[|xs| - 1] case Some(x) => p + x case None => 0.0
  }

  function Sum(xs: seq<real>): real
    decreases |xs|
  {
    if xs == [] then 0.0 else Sum(xs[..|xs| - 1]) + xs[|xs| - 1]
  }

  function Present(xs: seq<Option<real>>): (r: seq<real>)
    requires forall i :: 0 <= i < |xs| ==> xs[i].Some?
    ensures |r| == |xs| && forall i :: 0 <= i < |xs| ==> r[i] == xs[i].value
  {
    seq(|xs|, i requires 0 <= i < |xs| => xs[i].value)
  }

  /** With every value present the fold is the sum. */
  lemma {:induction false} TotalIsSum(xs: seq<Option<real>>)
    requires forall i :: 0 <= i < |xs| ==> xs[i].Some?
    ensures Total(xs) == Sum(Present(xs))
    decreases |xs|
  {
    if xs != [] {
      TotalIsSum(xs[..|xs| - 1]);
      assert Present(xs)[..|xs| - 1] == Present(xs[..|xs| - 1]);
    }
  }

  /** A missing value forgets everything before it. */
  lemma {:induction false} TotalResets(a: seq<Option<real>>, b: seq<Option<real>>)
    ensures Total(a + [None] + b) == Total(b)
    decreases |b|
  {
    if b == [] {
      assert (a + [None] + b)[..|a| + 1 - 1] == a;
    } else {
      var s := a + [None] + b;
      assert s[..|s| - 1] == a + [None] + b[..|b| - 1];
      TotalResets(a, b[..|b| - 1]);
    }
  }

  /** A value of the record `concatDemux` hands to `ffmpeg`: a caller's
      option, the metadata list, or a computed number. */
  datatype Arg = Given(value: Value) | Records(records: seq<Probe.Metadata>) | Number(x: real)

  function Durations(md: seq<Probe.Metadata>): (r: seq<Option<real>>)
    ensures |r| == |md| && forall i :: 0 <= i < |md| ==> r[i] == md[i].duration
  {
    seq(|md|, i requires 0 <= i < |md| => md[i].duration)
  }

  function Sizes(md: seq<Probe.Metadata>): (r: seq<Option<real>>)
    ensures |r| == |md| && forall i :: 0 <= i < |md| ==> r[i] == Some(md[i].size as real)
  {
    seq(|md|, i requires 0 <= i < |md| => Some(md[i].size as real))
  }

  /** `inputSize` is the sum of the inputs' sizes: a size is never missing. */
  lemma InputSizeIsSum(md: seq<Probe.Metadata>)
    ensures Total(Sizes(md)) == Sum(Present(Sizes(md)))
  {
    TotalIsSum(Sizes(md));
  }

  /** The defaults of lines 40-46. `listPath` is the path of the list file. */
  function DemuxDefaults(listPath: string, md: seq<Probe.Metadata>): map<string, Arg>
  {
    map[
      "input" := Given(Str(listPath)),
      "inputsMetadata" := Records(md),
      "inputSize" := Number(Total(Sizes(md))),
      "inputDuration" := Number(Total(Durations(md))),
      "inputOptions" := Given(Arr([Str("-f"), Str("concat"), Str("-safe"), Num(0)])),
      "codec" := Given(Str("copy")),
      "subtitlesMode" := Given(Str("stream"))]
  }

  /** The options other than `inputs` (`{ inputs, ...opts }`). */
  function Rest(opts: map<string, Value>): (r: map<string, Value>)
    ensures r.Keys == opts.Keys - {"inputs"}
    ensures forall k :: k in r ==> r[k] == opts[k]
  {
    map k | k in opts && k != "inputs" :: opts[k]
  }

  /** The record `concatDemux(opts)` passes to `ffmpeg`, given the path of
      the list file and the metadata `ffprobe` gave for each input. */
  function ConcatDemuxArgs(opts: map<string, Value>, listPath: string, md: seq<Probe.Metadata>): (r: Result<map<string, Arg>, HelperError>)
    requires Field(opts, "inputs").Arr? ==> |md| == |Field(opts, "inputs").items|
    ensures r.Err? <==> !Field(opts, "inputs").Arr?
    ensures r.Ok? ==> "inputs" !in r.value
  {
    if !Field(opts, "inputs").Arr? then Err(TypeError)
    else
      var rest := Rest(opts);
      Ok(DemuxDefaults(listPath, md) + map k | k in rest :: Given(rest[k]))
  }

  /** Caller options win over the defaults; a default survives exactly when
      the caller did not pass that key; `inputs` is not forwarded. */
  lemma ConcatDemuxPrecedence(opts: map<string, Value>, listPath: string, md: seq<Probe.Metadata>)
    requires Field(opts, "inputs").Arr?
    requires |md| == |Field(opts, "inputs").items|
    ensures ConcatDemuxArgs(opts, listPath, md).Ok?
    ensures var r := ConcatDemuxArgs(opts, listPath, md).value;
      r.Keys == (opts.Keys - {"inputs"}) + DemuxDefaults(listPath, md).Keys
    ensures var r := ConcatDemuxArgs(opts, listPath, md).value;
      forall k :: k in opts && k != "inputs" ==> r[k] == Given(opts[k])
    ensures var r := ConcatDemuxArgs(opts, listPath, md).value;
      forall k :: k in DemuxDefaults(listPath, md) && k !in opts ==> r[k] == DemuxDefaults(listPath, md)[k]
  {
  }
}

/** lib/ffprobe.js: the flat metadata record built from what the external
    prober reports, and the module-level cache of those records. The file
    size and the raw probe are inputs: `None` stands for a stat or probe call
    that threw. */
module Probe {
  import opened Js

  // -------------------------------------------------------- raw probe data

  /** The `format` section the prober reports. `duration` is None when it is
      missing (or zero); `bitRate` is None when it is missing. */
  datatype RawFormat = RawFormat(tags: Option<map<string, string>>, duration: Option<real>, bitRate: Option<int>)

  /** One entry of `streams`. The two frame rates are the values of the
      fraction texts ffprobe reports; None stands for a missing rate and for
      `0/0`. */
  datatype RawStream = RawStream(
    codecType: string,
    codecName: Option<string>,
    profile: Option<string>,
    level: Option<int>,
    width: Option<int>,
    height: Option<int>,
    aspectRatio: Option<string>,
    rFrameRate: Option<real>,
    avgFrameRate: Option<real>,
    duration: Option<real>,
    channels: Option<int>,
    sampleRate: Option<int>,
    bitRate: Option<int>)

  datatype RawProbe = RawProbe(format: Option<RawFormat>, streams: seq<RawStream>)

  // ------------------------------------------------------------ the record

  datatype Video = Video(
    codec: Option<string>,
    codecProfile: Option<string>,
    codecLevel: Option<int>,
    width: int,
    height: int,
    aspectRatio: Option<string>,
    framerate: real,
    videoDuration: Option<real>)

  datatype Audio = Audio(
    audioCodec: Option<string>,
    audioChannels: int,
    audioSampleRate: int,
    audioBitrate: int,
    audioDuration: Option<real>)

  /** The `metadata` record. A None field is a key the record does not
      have; `duration` and `bitrate` exist exactly when the probe has a
      format section, the video and audio fields exactly when it has such a
      stream. `full` is the raw probe attached at the end. */
  datatype Metadata = Metadata(
    input: string,
    title: Option<string>,
    artist: Option<string>,
    date: Option<string>,
    comment: Option<string>,
    duration: Option<real>,
    bitrate: Option<int>,
    video: Option<Video>,
    audio: Option<Audio>,
    size: nat,
    full: RawProbe)

  // ---------------------------------------------------------- field values

  /** `x || 0` on an optional integer. */
  function IntOrZero(x: Option<int>): (r: int)
    ensures x.None? ==> r == 0
    ensures x.Some? ==> r == x.value
  {
    match x case Some(v) => v case None => 0
  }

  /** `x || 0` on an optional number. */
  function RealOrZero(x: Option<real>): (r: real)
    ensures x.None? ==> r == 0.0
    ensures x.Some? ==> r == x.value
  {
    match x case Some(v) => v case None => 0.0
  }

  /** `Math.round(b / 1000) || 0` for an integer bit rate: rounding to the
      nearest thousand, halves upwards; a missing rate is 0. */
  function Kilo(b: Option<int>): (r: int)
    ensures b.None? ==> r == 0
    ensures b.Some? ==> 1000 * r - 500 <= b.value < 1000 * r + 500
  {
    match b case Some(v) => (v + 500) / 1000 case None => 0
  }

  /** A tag is copied only when it is present and non-empty. */
  function Tag(tags: map<string, string>, key: string): (r: Option<string>)
    ensures r.Some? <==> key in tags && tags[key] != ""
    ensures r.Some? ==> r.value == tags[key]
  {
    if key in tags && tags[key] != "" then Some(tags[key]) else None
  }

  function Min(a: real, b: real): (r: real)
    ensures r <= a && r <= b && (r == a || r == b)
  {
    if a <= b then a else b
  }

  /** `Math.min(r || 0, avg || 0) || 0`. */
  function Framerate(s: RawStream): real
  {
    Min(RealOrZero(s.rFrameRate), RealOrZero(s.avgFrameRate))
  }

  /** `streams.find(s => s.codec_type === kind)`. */
  function FindStream(streams: seq<RawStream>, kind: string): (r: Option<RawStream>)
    ensures r.None? <==> forall i :: 0 <= i < |streams| ==> streams[i].codecType != kind
    ensures r.Some? ==> exists i :: (0 <= i < |streams| && streams[i] == r.value &&
      r.value.codecType == kind && forall j :: 0 <= j < i ==> streams[j].codecType != kind)
  {
    if streams == [] then None
    else if streams[0].codecType == kind then Some(streams[0])
    else
      var r := FindStream(streams[1..], kind);
      assert forall i :: 1 <= i < |streams| ==> streams[i] == streams[1..][i - 1];
      if r.None? then r
      else
        var k :| 0 <= k < |streams[1..]| && streams[1..][k] == r.value &&
          r.value.codecType == kind && forall j :: 0 <= j < k ==> streams[1..][j].codecType != kind;
        assert streams[k + 1] == r.value;
        r
  }

  function VideoOf(s: RawStream): Video
  {
    Video(s.codecName, s.profile, s.level, IntOrZero(s.width), IntOrZero(s.height),
      s.aspectRatio, Framerate(s), s.duration)
  }

  function AudioOf(s: RawStream): Audio
  {
    Audio(s.codecName, IntOrZero(s.channels), IntOrZero(s.sampleRate), Kilo(s.bitRate), s.duration)
  }

  function TagOf(raw: RawProbe, key: string): Option<string>
  {
    if raw.format.Some? && raw.format.value.tags.Some? then Tag(raw.format.value.tags.value, key) else None
  }

  /** The record lines 56-104 build from the probe of `input` and the size
      of the file. The fields `humanDuration`, `humanSize` and `createdAt`
      are not part of it. */
  function MetadataOf(input: string, raw: RawProbe, size: nat): (m: Metadata)
    ensures m.input == input && m.size == size && m.full == raw
    ensures m.duration.Some? <==> raw.format.Some?
    ensures m.bitrate.Some? <==> raw.format.Some?
  {
    Metadata(
      input,
      TagOf(raw, "title"), TagOf(raw, "artist"), TagOf(raw, "date"), TagOf(raw, "comment"),
      if raw.format.Some? then Some(RealOrZero(raw.format.value.duration)) else None,
      if raw.format.Some? then Some(Kilo(raw.format.value.bitRate)) else None,
      match FindStream(raw.streams, "video") case Some(s) => Some(VideoOf(s)) case None => None,
      match FindStream(raw.streams, "audio") case Some(s) => Some(AudioOf(s)) case None => None,
      size,
      raw)
  }

  /** The field for tag `key` holds the tag's value exactly when the probe
      has a format section with tags holding `key` with a non-empty value. */
  ghost predicate TagCopied(field: Option<string>, raw: RawProbe, key: string)
  {
    (field.Some? <==>
      raw.format.Some? && raw.format.value.tags.Some? &&
      key in raw.format.value.tags.value && raw.format.value.tags.value[key] != "") &&
    (field.Some? ==> field.value == raw.format.value.tags.value[key])
  }

  lemma MetadataTags(input: string, raw: RawProbe, size: nat)
    ensures var m := MetadataOf(input, raw, size);
      TagCopied(m.title, raw, "title") && TagCopied(m.artist, raw, "artist") &&
      TagCopied(m.date, raw, "date") && TagCopied(m.comment, raw, "comment")
  {
  }

  /** `duration` is the reported one or 0, `bitrate` the reported one in
      kilobits (rounded) or 0; both exist exactly when there is a format
      section. The size is the file's whatever the probe says. */
  lemma MetadataFormat(input: string, raw: RawProbe, size: nat)
    ensures var m := MetadataOf(input, raw, size);
      m.input == input && m.size == size &&
      (m.duration.Some? <==> raw.format.Some?) && (m.bitrate.Some? <==> raw.format.Some?)
    ensures var m := MetadataOf(input, raw, size);
      raw.format.Some? ==>
        (raw.format.value.duration.None? ==> m.duration == Some(0.0)) &&
        (raw.format.value.duration.Some? ==> m.duration == raw.format.value.duration) &&
        (raw.format.value.bitRate.None? ==> m.bitrate == Some(0)) &&
        (raw.format.value.bitRate.Some? ==>
          1000 * m.bitrate.value - 500 <= raw.format.value.bitRate.value < 1000 * m.bitrate.value + 500)
  {
  }

  /** The video fields come from the first video stream, with missing
      dimensions read as 0; without a video stream there are none. */
  lemma MetadataVideo(input: string, raw: RawProbe, size: nat)
    ensures var m := MetadataOf(input, raw, size);
      m.video.None? <==> forall i :: 0 <= i < |raw.streams| ==> raw.streams[i].codecType != "video"
    ensures var m := MetadataOf(input, raw, size);
      m.video.Some? ==> exists i :: (0 <= i < |raw.streams| && raw.streams[i].codecType == "video" &&
        (forall j :: 0 <= j < i ==> raw.streams[j].codecType != "video") &&
        m.video.value == VideoOf(raw.streams[i]) &&
        m.video.value.codec == raw.streams[i].codecName &&
        m.video.value.codecProfile == raw.streams[i].profile &&
        m.video.value.codecLevel == raw.streams[i].level &&
        m.video.value.aspectRatio == raw.streams[i].aspectRatio &&
        m.video.value.videoDuration == raw.streams[i].duration &&
        m.video.value.width == IntOrZero(raw.streams[i].width) &&
        m.video.value.height == IntOrZero(raw.streams[i].height) &&
        m.video.value.framerate == Framerate(raw.streams[i]))
  {
    var m := MetadataOf(input, raw, size);
    if m.video.Some? {
      var s := FindStream(raw.streams, "video").value;
      var i :| 0 <= i < |raw.streams| && raw.streams[i] == s &&
        s.codecType == "video" && forall j :: 0 <= j < i ==> raw.streams[j].codecType != "video";
      assert m.video.value == VideoOf(raw.streams[i]);
    }
  }

  /** The audio fields come from the first audio stream, with channels and
      sample rate read as 0 when missing and the bit rate in kilobits. */
  lemma MetadataAudio(input: string, raw: RawProbe, size: nat)
    ensures var m := MetadataOf(input, raw, size);
      m.audio.None? <==> forall i :: 0 <= i < |raw.streams| ==> raw.streams[i].codecType != "audio"
    ensures var m := MetadataOf(input, raw, size);
      m.audio.Some? ==> exists i :: (0 <= i < |raw.streams| && raw.streams[i].codecType == "audio" &&
        (forall j :: 0 <= j < i ==> raw.streams[j].codecType != "audio") &&
        m.audio.value == AudioOf(raw.streams[i]) &&
        m.audio.value.audioCodec == raw.streams[i].codecName &&
        m.audio.value.audioDuration == raw.streams[i].duration &&
        m.audio.value.audioChannels == IntOrZero(raw.streams[i].channels) &&
        m.audio.value.audioSampleRate == IntOrZero(raw.streams[i].sampleRate) &&
        m.audio.value.audioBitrate == Kilo(raw.streams[i].bitRate))
  {
    var m := MetadataOf(input, raw, size);
    if m.audio.Some? {
      var s := FindStream(raw.streams, "audio").value;
      var i :| 0 <= i < |raw.streams| && raw.streams[i] == s &&
        s.codecType == "audio" && forall j :: 0 <= j < i ==> raw.streams[j].codecType != "audio";
      assert m.audio.value == AudioOf(raw.streams[i]);
    }
  }

  /** The frame rate is the smaller of the two rates; a missing (or `0/0`)
      rate counts as 0 and so, with positive rates, forces it to 0. */
  lemma FramerateIsMin(s: RawStream)
    ensures Framerate(s) <= RealOrZero(s.rFrameRate) && Framerate(s) <= RealOrZero(s.avgFrameRate)
    ensures Framerate(s) == RealOrZero(s.rFrameRate) || Framerate(s) == RealOrZero(s.avgFrameRate)
    ensures s.rFrameRate.None? && s.avgFrameRate.Some? && s.avgFrameRate.value >= 0.0 ==> Framerate(s) == 0.0
    ensures s.avgFrameRate.None? && s.rFrameRate.Some? && s.rFrameRate.value >= 0.0 ==> Framerate(s) == 0.0
  {
  }

  /** Lines 58-68: the tags that are present and non-empty, the duration
      and the bit rate of the format section. Nothing else changes. */
  method ReadFormat(data: Metadata, raw: RawProbe) returns (d: Metadata)
    requires raw.format.Some?
    ensures d.title == (if TagOf(raw, "title").Some? then TagOf(raw, "title") else data.title)
    ensures d.artist == (if TagOf(raw, "artist").Some? then TagOf(raw, "artist") else data.artist)
    ensures d.date == (if TagOf(raw, "date").Some? then TagOf(raw, "date") else data.date)
    ensures d.comment == (if TagOf(raw, "comment").Some? then TagOf(raw, "comment") else data.comment)
    ensures d.duration == Some(RealOrZero(raw.format.value.duration))
    ensures d.bitrate == Some(Kilo(raw.format.value.bitRate))
    ensures d.input == data.input && d.video == data.video && d.audio == data.audio
    ensures d.size == data.size && d.full == data.full
  {
    d := data;
    var format := raw.format.value;
    if format.tags.Some? {
      var tags := format.tags.value;
      if "title" in tags && tags["title"] != "" { d := d.(title := Some(tags["title"])); }
      if "artist" in tags && tags["artist"] != "" { d := d.(artist := Some(tags["artist"])); }
      if "date" in tags && tags["date"] != "" { d := d.(date := Some(tags["date"])); }
      if "comment" in tags && tags["comment"] != "" { d := d.(comment := Some(tags["comment"])); }
    }
    d := d.(duration := Some(RealOrZero(format.duration)));
    d := d.(bitrate := Some(Kilo(format.bitRate)));
  }

  /** Lines 69-84: the fields of the first video stream, when there is one.
      Nothing else changes. */
  method ReadVideo(data: Metadata, streams: seq<RawStream>) returns (d: Metadata)
    ensures FindStream(streams, "video").Some? ==> d.video == Some(VideoOf(FindStream(streams, "video").value))
    ensures FindStream(streams, "video").None? ==> d.video == data.video
    ensures d == data.(video := d.video)
  {
    d := data;
    var video := FindStream(streams, "video");
    if video.Some? {
      var v := video.value;
      var rate := Min(RealOrZero(v.rFrameRate), RealOrZero(v.avgFrameRate));
      d := d.(video := Some(Video(v.codecName, v.profile, v.level, IntOrZero(v.width),
        IntOrZero(v.height), v.aspectRatio, rate, v.duration)));
    }
  }

  /** Lines 85-91: the fields of the first audio stream, when there is one.
      Nothing else changes. */
  method ReadAudio(data: Metadata, streams: seq<RawStream>) returns (d: Metadata)
    ensures FindStream(streams, "audio").Some? ==> d.audio == Some(AudioOf(FindStream(streams, "audio").value))
    ensures FindStream(streams, "audio").None? ==> d.audio == data.audio
    ensures d == data.(audio := d.audio)
  {
    d := data;
    var audio := FindStream(streams, "audio");
    if audio.Some? {
      var a := audio.value;
      d := d.(audio := Some(Audio(a.codecName, IntOrZero(a.channels), IntOrZero(a.sampleRate),
        Kilo(a.bitRate), a.duration)));
    }
  }

  /** Lines 56-96 as the source writes them: one block after the other,
      starting from a record that holds only the input. */
  method BuildRecord(input: string, raw: RawProbe, size: nat) returns (data: Metadata)
    ensures data == MetadataOf(input, raw, size)
  {
    data := Metadata(input, None, None, None, None, None, None, None, None, 0, raw);
    if raw.format.Some? {
      data := ReadFormat(data, raw);
    }
    data := ReadVideo(data, raw.streams);
    data := ReadAudio(data, raw.streams);
    data := data.(size := size);
  }

  // ------------------------------------------------------------- ffprobe()

  /** `ffprobe(opts)`: a path, or options. The two flags are false exactly
      when the caller passed `cache: false` / `halt: false`. */
  datatype ProbeArg = InputPath(path: string) | ProbeOptions(input: string, cache: bool, halt: bool)

  function InputOf(arg: ProbeArg): string
  {
    match arg case InputPath(p) => p case ProbeOptions(input, _, _) => input
  }

  /** `opts.cache !== false`. */
  predicate UsesCache(arg: ProbeArg)
  {
    match arg case InputPath(_) => true case ProbeOptions(_, cache, _) => cache
  }

  /** `opts.halt !== false`. */
  predicate Halts(arg: ProbeArg)
  {
    match arg case InputPath(_) => true case ProbeOptions(_, _, halt) => halt
  }

  /** `Couldn't read input: <input>`, and the `TypeError` of calling an
      undefined function. */
  datatype ProbeError = CouldNotRead(input: string) | NotAFunction(name: string)

  /** A failed stat or probe: throw, or resolve to `undefined` when the
      caller asked not to halt. */
  function Failure(arg: ProbeArg): Result<Option<Metadata>, ProbeError>
  {
    if Halts(arg) then Err(CouldNotRead(InputOf(arg))) else Ok(None)
  }

  /** What `ffprobe` resolves to (Ok) or rejects with (Err), and the cache
      afterwards, given the cache before, the size `stat` reports and the
      raw probe. The fields the source fills with the undefined helpers
      are left out (see ProbeAsWritten). */
  function ProbeSpec(cache: map<string, Metadata>, arg: ProbeArg, size: Option<nat>, raw: Option<RawProbe>):
    (r: (Result<Option<Metadata>, ProbeError>, map<string, Metadata>))
    ensures r.1.Keys == cache.Keys || r.1.Keys == cache.Keys + {InputOf(arg)}
    ensures forall k :: k in cache && k != InputOf(arg) ==> k in r.1 && r.1[k] == cache[k]
    ensures r.1 != cache ==> UsesCache(arg) && r.0.Ok? && r.0.value.Some? && r.1 == cache[InputOf(arg) := r.0.value.value]
  {
    var input := InputOf(arg);
    if input in cache && UsesCache(arg) then (Ok(Some(cache[input])), cache)
    else if size.None? || raw.None? then (Failure(arg), cache)
    else
      var data := MetadataOf(input, raw.value, size.value);
      (Ok(Some(data)), if UsesCache(arg) then cache[input := data] else cache)
  }

  /** A cached record is returned as it is, whatever the file and the
      prober would say now. */
  lemma ProbeCacheHit(cache: map<string, Metadata>, arg: ProbeArg, size: Option<nat>, raw: Option<RawProbe>)
    requires InputOf(arg) in cache && UsesCache(arg)
    ensures ProbeSpec(cache, arg, size, raw) == (Ok(Some(cache[InputOf(arg)])), cache)
  {
  }

  /** A stat or probe failure throws, or gives `undefined` with
      `halt: false`; the cache is not touched. */
  lemma ProbeFailure(cache: map<string, Metadata>, arg: ProbeArg, size: Option<nat>, raw: Option<RawProbe>)
    requires !(InputOf(arg) in cache && UsesCache(arg))
    requires size.None? || raw.None?
    ensures ProbeSpec(cache, arg, size, raw).1 == cache
    ensures ProbeSpec(cache, arg, size, raw).0.Err? <==> Halts(arg)
    ensures ProbeSpec(cache, arg, size, raw).0.Err? ==>
      ProbeSpec(cache, arg, size, raw).0.error == CouldNotRead(InputOf(arg))
    ensures !Halts(arg) ==> ProbeSpec(cache, arg, size, raw).0 == Ok(None)
  {
  }

  /** A successful probe gives the record, and stores it under the input
      unless the caller passed `cache: false`; no other entry changes. */
  lemma ProbeSuccess(cache: map<string, Metadata>, arg: ProbeArg, size: nat, raw: RawProbe)
    requires !(InputOf(arg) in cache && UsesCache(arg))
    ensures ProbeSpec(cache, arg, Some(size), Some(raw)).0 == Ok(Some(MetadataOf(InputOf(arg), raw, size)))
    ensures UsesCache(arg) ==>
      ProbeSpec(cache, arg, Some(size), Some(raw)).1 == cache[InputOf(arg) := MetadataOf(InputOf(arg), raw, size)]
    ensures !UsesCache(arg) ==> ProbeSpec(cache, arg, Some(size), Some(raw)).1 == cache
  {
  }

  /** Probing the same input twice with the cache in use gives the same
      record the second time, even if the file or the prober changed. */
  lemma ProbeTwice(cache: map<string, Metadata>, arg: ProbeArg, size: Option<nat>, raw: Option<RawProbe>,
                   size2: Option<nat>, raw2: Option<RawProbe>)
    requires UsesCache(arg)
    requires ProbeSpec(cache, arg, size, raw).0.Ok? && ProbeSpec(cache, arg, size, raw).0.value.Some?
    ensures var (r, after) := ProbeSpec(cache, arg, size, raw);
      ProbeSpec(after, arg, size2, raw2) == (r, after)
  {
  }

  /** The module-level cache, and `ffprobe` over it. */
  class Prober {
    var cache: map<string, Metadata>

    constructor()
      ensures cache == map[]
    {
      cache := map[];
    }

    /** `ffprobe(opts)`; `size` is what `_.stat` gives (None: it threw),
        `raw` what the prober gives (None: it threw). */
    method Probe(arg: ProbeArg, size: Option<nat>, raw: Option<RawProbe>) returns (r: Result<Option<Metadata>, ProbeError>)
      modifies this
      ensures (r, cache) == ProbeSpec(old(cache), arg, size, raw)
    {
      var input := InputOf(arg);
      if input in cache {
        if UsesCache(arg) {
          return Ok(Some(cache[input]));
        }
      }
      if size.None? {
        return Failure(arg);
      }
      if raw.None? {
        return Failure(arg);
      }
      var data := BuildRecord(input, raw.value, size.value);
      if UsesCache(arg) {
        cache := cache[input := data];
      }
      r := Ok(Some(data));
    }
  }

  // -------------------------------------------------- the code as written

  /** `ffprobe` as the source is written. `_.Error`, `_.humanDuration` and
      `_.humanSize` are not defined in lib/utils.js, so `new Error(...)` on
      a halting failure and the calls at lines 66 and 94 throw a
      `TypeError`; the store into the cache at line 98 comes after them and
      is never reached. */
  function ProbeAsWritten(cache: map<string, Metadata>, arg: ProbeArg, size: Option<nat>, raw: Option<RawProbe>):
    (r: (Result<Option<Metadata>, ProbeError>, map<string, Metadata>))
    ensures r.1 == cache
    ensures r.0.Err? <==> (!(InputOf(arg) in cache && UsesCache(arg)) && ((size.Some? && raw.Some?) || Halts(arg)))
  {
    var input := InputOf(arg);
    if input in cache && UsesCache(arg) then (Ok(Some(cache[input])), cache)
    else if size.None? || raw.None? then (if Halts(arg) then Err(NotAFunction("Error")) else Ok(None), cache)
    else if raw.value.format.Some? then (Err(NotAFunction("humanDuration")), cache)
    else (Err(NotAFunction("humanSize")), cache)
  }

  /** As written, no call ever resolves to a record it did not find in the
      cache, and the cache never changes; so a cache that starts empty stays
      empty and every successful probe rejects. */
  lemma ProbeAsWrittenNeverRecords(cache: map<string, Metadata>, arg: ProbeArg, size: Option<nat>, raw: Option<RawProbe>)
    ensures var r := ProbeAsWritten(cache, arg, size, raw).0;
      r.Ok? && r.value.Some? ==> InputOf(arg) in cache && r.value.value == cache[InputOf(arg)]
    ensures cache == map[] && size.Some? && raw.Some? ==> ProbeAsWritten(cache, arg, size, raw).0.Err?
  {
  }

  /** As written, a stat or probe failure that should halt throws the
      `TypeError` of `new Error(...)` rather than `Couldn't read input`. */
  lemma ProbeAsWrittenFailure(cache: map<string, Metadata>, arg: ProbeArg, size: Option<nat>, raw: Option<RawProbe>)
    requires !(InputOf(arg) in cache && UsesCache(arg))
    requires size.None? || raw.None?
    ensures Halts(arg) ==> ProbeAsWritten(cache, arg, size, raw).0 == Err(NotAFunction("Error"))
    ensures !Halts(arg) ==> ProbeAsWritten(cache, arg, size, raw).0 == Ok(None)
  {
  }

  /** The corrected model resolves to the record on the same inputs. */
  lemma ProbeCorrectedRecords(arg: ProbeArg, size: nat, raw: RawProbe)
    ensures ProbeSpec(map[], arg, Some(size), Some(raw)).0 == Ok(Some(MetadataOf(InputOf(arg), raw, size)))
    ensures ProbeAsWritten(map[], arg, Some(size), Some(raw)).0.Err?
  {
  }
}

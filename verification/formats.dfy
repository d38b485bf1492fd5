/** The split of the platform's format list into the audio-only list and the
    video list returned by the metadata endpoint. Both lists keep upstream
    order; nothing is deduplicated, sorted or ranked. */
module Formats {
  import opened Wrappers
  import opened Picking

  /** One entry of the metadata's `formats` list. Every field is a key that
      may be missing. */
  datatype Format = Format(
    formatId: Option<string>,
    ext: Option<string>,
    filesize: Option<int>,
    formatNote: Option<string>,
    abr: Option<real>,
    width: Option<int>,
    height: Option<int>,
    fps: Option<real>,
    vcodec: Option<string>,
    acodec: Option<string>)

  /** An entry of `audio_formats` in the reply. */
  datatype AudioEntry = AudioEntry(
    formatId: Option<string>,
    ext: Option<string>,
    filesize: Option<int>,
    formatNote: Option<string>,
    abr: Option<real>,
    downloadUrl: string)

  /** An entry of `video_formats` in the reply. */
  datatype VideoEntry = VideoEntry(
    formatId: Option<string>,
    ext: Option<string>,
    filesize: Option<int>,
    formatNote: Option<string>,
    width: Option<int>,
    height: Option<int>,
    fps: Option<real>,
    vcodec: Option<string>,
    acodec: Option<string>,
    downloadUrl: string,
    resolution: string)

  /** Audio only: the video codec is the string "none" and the audio codec is not. */
  predicate IsAudioOnly(f: Format) {
    f.vcodec == Some("none") && f.acodec != Some("none")
  }

  /** Video: the video codec is anything but "none", a missing key included. */
  predicate IsVideo(f: Format) {
    f.vcodec != Some("none")
  }

  /** Every format lands in exactly one of: the audio list, the video list, or
      neither; it lands in neither exactly when both codecs are "none". */
  lemma Classification(f: Format)
    ensures !(IsAudioOnly(f) && IsVideo(f))
    ensures !IsAudioOnly(f) && !IsVideo(f) <==> f.vcodec == Some("none") && f.acodec == Some("none")
  {
  }

  /** How Python's f-string renders an optional value: `None` for a missing key. */
  function Show(s: Option<string>): string {
    match s
    case Some(v) => v
    case None => "None"
  }

  function DigitChar(d: nat): (c: char)
    requires d < 10
    ensures '0' <= c <= '9'
  {
    ('0' as int + d) as char
  }

  /** Decimal digits of a natural number, most significant first. */
  function Digits(n: nat): (r: string)
    ensures r != []
    ensures forall i :: 0 <= i < |r| ==> '0' <= r[i] <= '9'
  {
    if n < 10 then [DigitChar(n)] else Digits(n / 10) + [DigitChar(n % 10)]
  }

  /** The number a string of decimal digits denotes, most significant first. */
  function DigitsValue(s: string): int
    decreases |s|
  {
    if s == [] then 0 else 10 * DigitsValue(s[..|s| - 1]) + (s[|s| - 1] as int - '0' as int)
  }

  /** Reading the digits back gives the number: `Digits` is Python's `str(n)`. */
  lemma {:induction false} DigitsRoundTrip(n: nat)
    ensures DigitsValue(Digits(n)) == n
  {
    if n >= 10 {
      DigitsRoundTrip(n / 10);
      var r := Digits(n);
      assert r[..|r| - 1] == Digits(n / 10);
    }
  }

  /** `str(n)` for an integer. */
  function DecimalString(n: int): (r: string)
    ensures r != []
    ensures n >= 0 ==> forall i :: 0 <= i < |r| ==> '0' <= r[i] <= '9'
    ensures n < 0 ==> r[0] == '-'
  {
    if n < 0 then "-" + Digits(-n) else Digits(n)
  }

  /** The per-format direct-download link: `/api/direct-download/<video id>/<format id>`. */
  function DirectDownloadUrl(videoId: Option<string>, formatId: Option<string>): string {
    "/api/direct-download/" + Show(videoId) + "/" + Show(formatId)
  }

  function ToAudioEntry(videoId: Option<string>, f: Format): (e: AudioEntry)
    ensures e.formatId == f.formatId && e.ext == f.ext && e.filesize == f.filesize
    ensures e.formatNote == f.formatNote && e.abr == f.abr
    ensures e.downloadUrl == DirectDownloadUrl(videoId, f.formatId)
  {
    AudioEntry(f.formatId, f.ext, f.filesize, f.formatNote, f.abr, DirectDownloadUrl(videoId, f.formatId))
  }

  /** `"<width>x<height>"`, a missing dimension shown as 0. */
  function Resolution(f: Format): string {
    DecimalString(f.width.GetOr(0)) + "x" + DecimalString(f.height.GetOr(0))
  }

  function ToVideoEntry(videoId: Option<string>, f: Format): (e: VideoEntry)
    ensures e.formatId == f.formatId && e.ext == f.ext && e.filesize == f.filesize
    ensures e.formatNote == f.formatNote && e.width == f.width && e.height == f.height
    ensures e.fps == f.fps && e.vcodec == f.vcodec && e.acodec == f.acodec
    ensures e.downloadUrl == DirectDownloadUrl(videoId, f.formatId)
    ensures e.resolution == Resolution(f)
  {
    VideoEntry(f.formatId, f.ext, f.filesize, f.formatNote, f.width, f.height, f.fps,
               f.vcodec, f.acodec, DirectDownloadUrl(videoId, f.formatId), Resolution(f))
  }

  /** The audio list the metadata endpoint returns, as a specification. */
  function AudioList(videoId: Option<string>, formats: seq<Format>): seq<AudioEntry> {
    Pick(formats, IsAudioOnly, f => ToAudioEntry(videoId, f))
  }

  /** The video list the metadata endpoint returns, as a specification. */
  function VideoList(videoId: Option<string>, formats: seq<Format>): seq<VideoEntry> {
    Pick(formats, IsVideo, f => ToVideoEntry(videoId, f))
  }

  /** The loop that builds `audio_formats`. */
  method ExtractAudioFormats(videoId: Option<string>, formats: seq<Format>) returns (audio: seq<AudioEntry>)
    ensures audio == AudioList(videoId, formats)
  {
    audio := [];
    var i := 0;
    while i < |formats|
      invariant 0 <= i <= |formats|
      invariant audio == AudioList(videoId, formats[..i])
    {
      var f := formats[i];
      assert formats[..i + 1][..i] == formats[..i];
      if f.vcodec == Some("none") && f.acodec != Some("none") {
        audio := audio + [ToAudioEntry(videoId, f)];
      }
      i := i + 1;
    }
    assert formats[..i] == formats;
  }

  /** The loop that builds `video_formats`. */
  method ExtractVideoFormats(videoId: Option<string>, formats: seq<Format>) returns (video: seq<VideoEntry>)
    ensures video == VideoList(videoId, formats)
  {
    video := [];
    var i := 0;
    while i < |formats|
      invariant 0 <= i <= |formats|
      invariant video == VideoList(videoId, formats[..i])
    {
      var f := formats[i];
      assert formats[..i + 1][..i] == formats[..i];
      if f.vcodec != Some("none") {
        video := video + [ToVideoEntry(videoId, f)];
      }
      i := i + 1;
    }
    assert formats[..i] == formats;
  }

  /** The audio list has one entry per audio-only format: none dropped, none merged. */
  lemma AudioListLength(videoId: Option<string>, formats: seq<Format>)
    ensures |AudioList(videoId, formats)| == Count(formats, IsAudioOnly)
  {
    PickLength(formats, IsAudioOnly, f => ToAudioEntry(videoId, f));
  }

  /** Every audio-only format appears in the audio list, at the position given
      by the number of audio-only formats before it. */
  lemma AudioListContains(videoId: Option<string>, formats: seq<Format>, i: nat)
    requires i < |formats| && IsAudioOnly(formats[i])
    ensures Rank(formats, IsAudioOnly, i) < |AudioList(videoId, formats)|
    ensures AudioList(videoId, formats)[Rank(formats, IsAudioOnly, i)] == ToAudioEntry(videoId, formats[i])
  {
    PickAt(formats, IsAudioOnly, f => ToAudioEntry(videoId, f), i);
  }

  /** Every entry of the audio list comes from an audio-only format at that position. */
  lemma AudioListOnlyAudio(videoId: Option<string>, formats: seq<Format>, k: nat) returns (i: nat)
    requires k < |AudioList(videoId, formats)|
    ensures i < |formats| && IsAudioOnly(formats[i]) && Rank(formats, IsAudioOnly, i) == k
    ensures AudioList(videoId, formats)[k] == ToAudioEntry(videoId, formats[i])
  {
    i := PickSource(formats, IsAudioOnly, f => ToAudioEntry(videoId, f), k);
  }

  /** The video list has one entry per video format: none dropped, none merged. */
  lemma VideoListLength(videoId: Option<string>, formats: seq<Format>)
    ensures |VideoList(videoId, formats)| == Count(formats, IsVideo)
  {
    PickLength(formats, IsVideo, f => ToVideoEntry(videoId, f));
  }

  /** Every video format appears in the video list, at the position given by
      the number of video formats before it. */
  lemma VideoListContains(videoId: Option<string>, formats: seq<Format>, i: nat)
    requires i < |formats| && IsVideo(formats[i])
    ensures Rank(formats, IsVideo, i) < |VideoList(videoId, formats)|
    ensures VideoList(videoId, formats)[Rank(formats, IsVideo, i)] == ToVideoEntry(videoId, formats[i])
  {
    PickAt(formats, IsVideo, f => ToVideoEntry(videoId, f), i);
  }

  /** Every entry of the video list comes from a video format at that position. */
  lemma VideoListOnlyVideo(videoId: Option<string>, formats: seq<Format>, k: nat) returns (i: nat)
    requires k < |VideoList(videoId, formats)|
    ensures i < |formats| && IsVideo(formats[i]) && Rank(formats, IsVideo, i) == k
    ensures VideoList(videoId, formats)[k] == ToVideoEntry(videoId, formats[i])
  {
    i := PickSource(formats, IsVideo, f => ToVideoEntry(videoId, f), k);
  }

  /** Upstream order is kept: of two formats in the same list, the earlier one
      comes first. */
  lemma ListsKeepUpstreamOrder(formats: seq<Format>, i: nat, j: nat)
    requires i < j < |formats|
    ensures IsAudioOnly(formats[i]) && IsAudioOnly(formats[j]) ==>
      Rank(formats, IsAudioOnly, i) < Rank(formats, IsAudioOnly, j)
    ensures IsVideo(formats[i]) && IsVideo(formats[j]) ==>
      Rank(formats, IsVideo, i) < Rank(formats, IsVideo, j)
  {
    if IsAudioOnly(formats[i]) { RankStrictlyIncreasing(formats, IsAudioOnly, i, j); }
    if IsVideo(formats[i]) { RankStrictlyIncreasing(formats, IsVideo, i, j); }
  }

  /** Two equal formats both appear: the lists are not deduplicated. */
  lemma DuplicatesKept(videoId: Option<string>, f: Format)
    requires IsVideo(f)
    ensures VideoList(videoId, [f, f]) == [ToVideoEntry(videoId, f), ToVideoEntry(videoId, f)]
  {
    var g := (x: Format) => ToVideoEntry(videoId, x);
    assert [f, f][..1] == [f];
    assert [f][..0] == [];
    assert Pick([f], IsVideo, g) == [g(f)];
    assert Pick([f, f], IsVideo, g) == Pick([f], IsVideo, g) + [g(f)];
  }
}

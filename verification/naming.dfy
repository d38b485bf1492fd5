/** File names and yt-dlp arguments computed by the download handlers: the
    cache file name of the direct-download endpoint, the yt-dlp format
    selector, the title-derived attachment name, and the search for the file
    yt-dlp actually wrote when its extension differs from the expected one. */
module Naming {
  import opened Wrappers
  import opened Text
  import opened Picking

  /** `os.path.join(folder, name)` for a relative `name`. */
  function Join(folder: string, name: string): (r: string)
    ensures folder + "/" <= r && r[|folder| + 1..] == name
  {
    folder + "/" + name
  }

  /** The cache file name `<video id>_<format id>[_<audio id>].mp4`; the audio
      part is present only for a non-empty audio id. */
  function CacheFilename(videoId: string, formatId: string, audioId: Option<string>): (r: string)
    ensures videoId + "_" + formatId <= r
    ensures |r| >= 4 && r[|r| - 4..] == ".mp4"
    ensures |r| == |videoId| + 1 + |formatId| + (if Truthy(audioId) then 1 + |audioId.value| else 0) + 4
    ensures Truthy(audioId) ==> r[|videoId| + 1 + |formatId|..|r| - 4] == "_" + audioId.value
  {
    var name := videoId + "_" + formatId;
    var name := if Truthy(audioId) then name + "_" + audioId.value else name;
    name + ".mp4"
  }

  /** Reads the format and audio ids back from a cache file name of the given video. */
  function ParseCacheFilename(videoId: string, name: string): Option<(string, Option<string>)> {
    var head := videoId + "_";
    if head <= name && |name| >= |head| + 4 && name[|name| - 4..] == ".mp4" then
      Some(SplitFirst(name[|head|..|name| - 4], '_'))
    else None
  }

  /** Given the video id, the cache name determines the format id and the
      (non-empty) audio id, as long as the format id has no underscore. */
  lemma CacheFilenameRoundTrip(videoId: string, formatId: string, audioId: Option<string>)
    requires '_' !in formatId
    ensures ParseCacheFilename(videoId, CacheFilename(videoId, formatId, audioId))
         == Some((formatId, if Truthy(audioId) then audioId else None))
  {
    var given := if Truthy(audioId) then audioId else None;
    var middle := if given.Some? then formatId + "_" + given.value else formatId;
    var name := CacheFilename(videoId, formatId, audioId);
    assert name == videoId + "_" + middle + ".mp4";
    assert name[|videoId + "_"|..|name| - 4] == middle;
    SplitFirstJoin(formatId, '_', given);
  }

  /** Two cache names of one video differ when their format ids differ
      (format ids without underscores). */
  lemma CacheFilenameSeparatesFormats(videoId: string, f1: string, f2: string, a1: Option<string>, a2: Option<string>)
    requires '_' !in f1 && '_' !in f2 && f1 != f2
    ensures CacheFilename(videoId, f1, a1) != CacheFilename(videoId, f2, a2)
  {
    CacheFilenameRoundTrip(videoId, f1, a1);
    CacheFilenameRoundTrip(videoId, f2, a2);
  }

  /** The cache name does not separate a format id containing '_' from a
      request with an audio id: `v_1_2.mp4` names both format "1" with audio
      "2" and format "1_2" without audio, so the endpoint may send the file
      cached for one request in answer to the other. */
  lemma CacheFilenameCollision(videoId: string, formatId: string, audioId: string)
    requires audioId != ""
    ensures CacheFilename(videoId, formatId, Some(audioId)) == CacheFilename(videoId, formatId + "_" + audioId, None)
  {
  }

  /** The yt-dlp format selector: the requested format plus the given audio
      id, or plus `bestaudio` when no audio id is given. */
  function FormatSelector(formatId: string, audioId: Option<string>): (r: string)
    ensures formatId + "+" <= r
    ensures Truthy(audioId) ==> r[|formatId| + 1..] == audioId.value
    ensures !Truthy(audioId) ==> r[|formatId| + 1..] == "bestaudio"
  {
    if !Truthy(audioId) then formatId + "+bestaudio" else formatId + "+" + audioId.value
  }

  /** Read at its first '+', the selector names the requested video format and
      the audio part (the given id, or `bestaudio`). */
  lemma FormatSelectorRoundTrip(formatId: string, audioId: Option<string>)
    requires '+' !in formatId
    ensures SplitFirst(FormatSelector(formatId, audioId), '+')
         == (formatId, Some(if Truthy(audioId) then audioId.value else "bestaudio"))
  {
    var audio := if Truthy(audioId) then audioId.value else "bestaudio";
    assert FormatSelector(formatId, audioId) == formatId + "+" + audio;
    SplitFirstJoin(formatId, '+', Some(audio));
  }

  /** Characters a title keeps when it becomes a file name. */
  predicate TitleChar(c: char) {
    IsAsciiAlnum(c) || c == ' ' || c == '.' || c == '_' || c == '-'
  }

  /** The title-cleaning comprehension. */
  function SanitizeTitle(title: string): string {
    Pick(title, TitleChar, c => c)
  }

  /** The cleaned title holds only kept characters. */
  lemma SanitizeTitleOnlyKept(title: string)
    ensures forall k :: 0 <= k < |SanitizeTitle(title)| ==> TitleChar(SanitizeTitle(title)[k])
  {
    PickOnlyKept(title, TitleChar, c => c);
  }

  /** The cleaned title has exactly one character per kept character of the title. */
  lemma SanitizeTitleLength(title: string)
    ensures |SanitizeTitle(title)| == Count(title, TitleChar)
  {
    PickLength(title, TitleChar, c => c);
  }

  /** Every character of the cleaned title is a kept character of the title,
      at the position given by the number of kept characters before it: the
      cleaning adds nothing. */
  lemma SanitizeTitleOnlyFromTitle(title: string, k: nat) returns (i: nat)
    requires k < |SanitizeTitle(title)|
    ensures i < |title| && TitleChar(title[i]) && Rank(title, TitleChar, i) == k
    ensures SanitizeTitle(title)[k] == title[i]
  {
    i := PickSource(title, TitleChar, c => c, k);
  }

  /** Every kept character of the title survives, at the position given by the
      number of kept characters before it. */
  lemma SanitizeTitleKeepsInOrder(title: string, i: nat)
    requires i < |title| && TitleChar(title[i])
    ensures Rank(title, TitleChar, i) < |SanitizeTitle(title)|
    ensures SanitizeTitle(title)[Rank(title, TitleChar, i)] == title[i]
  {
    PickAt(title, TitleChar, c => c, i);
  }

  /** Cleaning is idempotent, and a title of kept characters is unchanged. */
  lemma SanitizeTitleIdempotent(title: string)
    ensures SanitizeTitle(SanitizeTitle(title)) == SanitizeTitle(title)
    ensures (forall i :: 0 <= i < |title| ==> TitleChar(title[i])) ==> SanitizeTitle(title) == title
  {
    PickIdempotent(title, TitleChar, c => c);
    if forall i :: 0 <= i < |title| ==> TitleChar(title[i]) {
      PickAllKept(title, TitleChar, c => c);
    }
  }

  /** The attachment name of a direct download: a non-empty custom name wins;
      otherwise a non-empty title, cleaned, plus ".mp4"; otherwise the video
      id plus ".mp4". A cached file is served before yt-dlp runs, so it has
      no title. */
  function DownloadName(custom: Option<string>, title: Option<string>, videoId: string): (r: string)
    ensures Truthy(custom) ==> r == custom.value
    ensures !Truthy(custom) ==> |r| >= 4 && r[|r| - 4..] == ".mp4"
    ensures !Truthy(custom) && !Truthy(title) ==> r[..|r| - 4] == videoId
    ensures !Truthy(custom) && Truthy(title) ==> r[..|r| - 4] == SanitizeTitle(title.value)
  {
    if !Truthy(custom) && Truthy(title) then SanitizeTitle(title.value) + ".mp4"
    else if Truthy(custom) then custom.value
    else videoId + ".mp4"
  }

  /** A title-derived attachment name never holds a path separator. */
  lemma TitleNameHasNoSeparator(title: string)
    requires title != ""
    ensures '/' !in DownloadName(None, Some(title), "")
  {
    var r := DownloadName(None, Some(title), "");
    SanitizeTitleOnlyKept(title);
    assert r == SanitizeTitle(title) + ".mp4";
    forall k | 0 <= k < |r| ensures r[k] != '/' {
      if k < |SanitizeTitle(title)| {
        assert TitleChar(SanitizeTitle(title)[k]);
      }
    }
  }

  /** The extensions tried, in order, when yt-dlp's expected file is missing. */
  const FallbackExtensions: seq<string> := ["mp4", "webm", "mkv", "m4a", "mp3"]

  /** The expected name with its last extension replaced by `ext`. */
  function Candidate(downloaded: string, ext: string): string {
    BeforeLast(downloaded, '.') + "." + ext
  }

  /** The search in `download_specific_format` for the file yt-dlp wrote: the
      expected name if it exists, else the first existing candidate over the
      fallback extensions, else the expected name unchanged. */
  method ResolveDownloadedFile(downloaded: string, onDisk: string -> bool) returns (actual: string)
    ensures onDisk(downloaded) ==> actual == downloaded
    ensures !onDisk(downloaded) && (forall k :: 0 <= k < |FallbackExtensions| ==> !onDisk(Candidate(downloaded, FallbackExtensions[k])))
      ==> actual == downloaded
    ensures !onDisk(downloaded) && (exists k :: 0 <= k < |FallbackExtensions| && onDisk(Candidate(downloaded, FallbackExtensions[k]))) ==>
      exists k :: (0 <= k < |FallbackExtensions| && actual == Candidate(downloaded, FallbackExtensions[k]) && onDisk(actual)
                   && forall j :: 0 <= j < k ==> !onDisk(Candidate(downloaded, FallbackExtensions[j])))
  {
    actual := downloaded;
    if !onDisk(actual) {
      var k := 0;
      while k < |FallbackExtensions|
        invariant 0 <= k <= |FallbackExtensions|
        invariant actual == downloaded
        invariant forall j :: 0 <= j < k ==> !onDisk(Candidate(downloaded, FallbackExtensions[j]))
      {
        var candidate := BeforeLast(downloaded, '.') + "." + FallbackExtensions[k];
        if onDisk(candidate) {
          actual := candidate;
          break;
        }
        k := k + 1;
      }
    }
  }
}

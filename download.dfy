/** Recognising YouTube URLs: the video id, the playlist id, and the records
    built for each video of a playlist. The two regular expressions of the
    original are written out as leftmost scans over the URL. */
module Download {
  import opened Wrappers

  /** `[a-zA-Z0-9_-]`, the characters of video and playlist ids. */
  predicate IdChar(c: char)
  {
    ('a' <= c <= 'z') || ('A' <= c <= 'Z') || ('0' <= c <= '9') || c == '_' || c == '-'
  }

  /** Length of a video id. */
  const ID_LENGTH: nat := 11

  /** An 11-character video id. */
  predicate ValidVideoId(id: string)
  {
    |id| == ID_LENGTH && forall k | 0 <= k < |id| :: IdChar(id[k])
  }

  /** The id `id` occurs somewhere in `s`. */
  ghost predicate Occurs(s: string, id: string)
  {
    exists j, k :: 0 <= j <= k <= |s| && s[j..k] == id
  }

  /** The two video-id patterns, in the order they are tried. */
  datatype Pattern =
    | WatchOrShort  // `(?:v=|/v/|youtu\.be/)` followed by the id
    | Embed         // `(?:embed/)` followed by the id

  /** Where the id begins when a literal of `p` starts at position `i`. The
      alternatives start with different characters, so at most one of them
      occurs at `i`. */
  function LiteralEnd(s: string, p: Pattern, i: nat): Option<nat>
  {
    match p
    case WatchOrShort =>
      if i + 2 <= |s| && s[i] == 'v' && s[i + 1] == '=' then Some(i + 2)
      else if i + 3 <= |s| && s[i] == '/' && s[i + 1] == 'v' && s[i + 2] == '/' then Some(i + 3)
      else if i + 9 <= |s| && s[i] == 'y' && s[i + 1] == 'o' && s[i + 2] == 'u' && s[i + 3] == 't'
        && s[i + 4] == 'u' && s[i + 5] == '.' && s[i + 6] == 'b' && s[i + 7] == 'e' && s[i + 8] == '/' then Some(i + 9)
      else None
    case Embed =>
      if i + 6 <= |s| && s[i] == 'e' && s[i + 1] == 'm' && s[i + 2] == 'b' && s[i + 3] == 'e'
        && s[i + 4] == 'd' && s[i + 5] == '/' then Some(i + 6)
      else None
  }

  /** The eleven id characters starting at position `j`, if there are. */
  function IdAt(s: string, j: nat): (r: Option<string>)
    ensures r.Some? ==> ValidVideoId(r.value) && Occurs(s, r.value)
  {
    if j + ID_LENGTH <= |s| && forall k | j <= k < j + ID_LENGTH :: IdChar(s[k]) then
      Some(s[j..j + ID_LENGTH])
    else None
  }

  /** Group 1 of a match of `p` starting exactly at position `i`. */
  function MatchAt(s: string, p: Pattern, i: nat): (r: Option<string>)
    ensures r.Some? ==> ValidVideoId(r.value) && Occurs(s, r.value)
  {
    var e := LiteralEnd(s, p, i);
    if e.Some? then IdAt(s, e.value) else None
  }

  /** `re.search(p, s[i..])`: the match at the leftmost position from `i`. */
  function Search(s: string, p: Pattern, i: nat): (r: Option<string>)
    requires i <= |s|
    ensures r.Some? ==> ValidVideoId(r.value) && Occurs(s, r.value)
    decreases |s| - i
  {
    if MatchAt(s, p, i).Some? then MatchAt(s, p, i)
    else if i == |s| then None
    else Search(s, p, i + 1)
  }

  /** The first `Some` of `ms` from position `i` on: what a left-to-right
      scan for a match returns. */
  function FirstSome<T>(ms: seq<Option<T>>, i: nat): Option<T>
    requires i <= |ms|
    decreases |ms| - i
  {
    if i == |ms| then None
    else if ms[i].Some? then ms[i]
    else FirstSome(ms, i + 1)
  }

  /** The scan fails exactly when every entry from `i` is `None`; when it
      succeeds it returns the entry at the leftmost `Some` position `j`. */
  lemma {:induction false} FirstSomeLeftmost<T>(ms: seq<Option<T>>, i: nat) returns (j: nat)
    requires i <= |ms|
    ensures FirstSome(ms, i).None? <==> forall k | i <= k < |ms| :: ms[k].None?
    ensures FirstSome(ms, i).Some? ==> i <= j < |ms| && ms[j] == FirstSome(ms, i)
    ensures i <= j <= |ms| && forall k | i <= k < j :: ms[k].None?
    decreases |ms| - i
  {
    j := i;
    if i < |ms| && ms[i].None? {
      j := FirstSomeLeftmost(ms, i + 1);
    }
  }

  /** The match of `p` at every position of `s`, the end included. */
  function Matches(s: string, p: Pattern): (ms: seq<Option<string>>)
    ensures |ms| == |s| + 1
    ensures forall k | 0 <= k <= |s| :: ms[k] == MatchAt(s, p, k)
  {
    seq(|s| + 1, k requires 0 <= k <= |s| => MatchAt(s, p, k))
  }

  lemma {:induction false} SearchIsFirst(s: string, p: Pattern, i: nat)
    requires i <= |s|
    ensures Search(s, p, i) == FirstSome(Matches(s, p), i)
    decreases |s| - i
  {
    if MatchAt(s, p, i).None? && i < |s| {
      SearchIsFirst(s, p, i + 1);
    }
  }

  /** The search fails exactly when no position from `i` matches; when it
      succeeds it returns the match at the leftmost matching position `j`. */
  lemma SearchLeftmost(s: string, p: Pattern, i: nat) returns (j: nat)
    requires i <= |s|
    ensures Search(s, p, i).None? <==> forall k | i <= k <= |s| :: MatchAt(s, p, k).None?
    ensures Search(s, p, i).Some? ==> i <= j <= |s| && MatchAt(s, p, j) == Search(s, p, i)
    ensures forall k | i <= k < j :: MatchAt(s, p, k).None?
  {
    var ms := Matches(s, p);
    SearchIsFirst(s, p, i);
    j := FirstSomeLeftmost(ms, i);
  }

  /** `extract_video_id`: the first pattern anywhere in the URL, else the
      second, else an error. */
  function ExtractVideoId(url: string): (r: Result<string, string>)
    ensures r.Ok? ==> ValidVideoId(r.value) && Occurs(url, r.value)
  {
    var first := Search(url, WatchOrShort, 0);
    if first.Some? then Ok(first.value)
    else
      var second := Search(url, Embed, 0);
      if second.Some? then Ok(second.value)
      else Err("Could not extract video ID from: " + url)
  }

  /** Extraction fails exactly when neither pattern matches anywhere. */
  lemma ExtractFailsIffNoMatch(url: string)
    ensures ExtractVideoId(url).Err? <==> forall j | 0 <= j <= |url| ::
      MatchAt(url, WatchOrShort, j).None? && MatchAt(url, Embed, j).None?
  {
    var _ := SearchLeftmost(url, WatchOrShort, 0);
    var _ := SearchLeftmost(url, Embed, 0);
  }

  /** The `v=`, `/v/` or `youtu.be/` form wins over an `embed/` form anywhere
      in the URL. */
  lemma {:induction false} WatchFormFirst(url: string, j: nat)
    requires j <= |url| && MatchAt(url, WatchOrShort, j).Some?
    ensures Search(url, WatchOrShort, 0).Some?
    ensures ExtractVideoId(url) == Ok(Search(url, WatchOrShort, 0).value)
  {
    var _ := SearchLeftmost(url, WatchOrShort, 0);
  }

  /** The URL of a video on the watch page. */
  function WatchUrl(id: string): string
  {
    "https://www.youtube.com/watch?v=" + id
  }

  /** A valid id is recovered from its watch URL. */
  lemma WatchUrlRoundTrip(id: string)
    requires ValidVideoId(id)
    ensures ExtractVideoId(WatchUrl(id)) == Ok(id)
  {
    var url := WatchUrl(id);
    var prefix := "https://www.youtube.com/watch?v=";
    assert |prefix| == 32;
    assert forall k | 0 <= k < 32 :: url[k] == prefix[k];
    assert forall k | 0 <= k < ID_LENGTH :: url[32 + k] == id[k];
    assert url[32..32 + ID_LENGTH] == id;
    assert MatchAt(url, WatchOrShort, 30) == Some(id);
    forall j | 0 <= j < 30
      ensures MatchAt(url, WatchOrShort, j).None?
    {
      assert url[j] != 'v' && (url[j] != '/' || url[j + 1] != 'v') && (url[j] != 'y' || url[j + 5] != '.');
    }
    SearchFindsFirst(url, WatchOrShort, 0, 30);
  }

  /** When position `j` matches and nothing before it does, the search
      returns the match at `j`. */
  lemma {:induction false} SearchFindsFirst(s: string, p: Pattern, i: nat, j: nat)
    requires i <= j <= |s| && MatchAt(s, p, j).Some?
    requires forall k | i <= k < j :: MatchAt(s, p, k).None?
    ensures Search(s, p, i) == MatchAt(s, p, j)
    decreases j - i
  {
    if i < j {
      SearchFindsFirst(s, p, i + 1, j);
    }
  }

  /** Number of id characters in a row from position `j`. */
  function RunLength(s: string, j: nat): (n: nat)
    requires j <= |s|
    ensures j + n <= |s|
    ensures forall k | j <= k < j + n :: IdChar(s[k])
    ensures j + n < |s| ==> !IdChar(s[j + n])
    decreases |s| - j
  {
    if j < |s| && IdChar(s[j]) then 1 + RunLength(s, j + 1) else 0
  }

  /** `[?&]list=` starts at position `i`. */
  predicate MarkerAt(s: string, i: nat)
  {
    i + 6 <= |s| && (s[i] == '?' || s[i] == '&') && s[i + 1] == 'l' && s[i + 2] == 'i'
    && s[i + 3] == 's' && s[i + 4] == 't' && s[i + 5] == '='
  }

  /** Group 1 of a match of `[?&]list=([a-zA-Z0-9_-]+)` starting at
      position `i`: the greedy `+` takes the whole run of id characters,
      which must not be empty. */
  function ListAt(s: string, i: nat): (r: Option<string>)
    ensures r.Some? <==> MarkerAt(s, i) && i + 6 < |s| && IdChar(s[i + 6])
    ensures r.Some? ==> |r.value| > 0 && i + 6 + |r.value| <= |s| && s[i + 6..i + 6 + |r.value|] == r.value
    ensures r.Some? ==> forall k | 0 <= k < |r.value| :: IdChar(r.value[k])
    ensures r.Some? && i + 6 + |r.value| < |s| ==> !IdChar(s[i + 6 + |r.value|])
  {
    if MarkerAt(s, i) && RunLength(s, i + 6) > 0 then
      Some(s[i + 6..i + 6 + RunLength(s, i + 6)])
    else None
  }

  /** `extract_playlist_id` from position `i` on: the leftmost match. */
  function PlaylistFrom(url: string, i: nat): (r: Option<string>)
    requires i <= |url|
    ensures r.Some? ==> |r.value| > 0 && forall k | 0 <= k < |r.value| :: IdChar(r.value[k])
    decreases |url| - i
  {
    if ListAt(url, i).Some? then ListAt(url, i)
    else if i == |url| then None
    else PlaylistFrom(url, i + 1)
  }

  /** The playlist match at every position of `url`, the end included. */
  function Lists(url: string): (ms: seq<Option<string>>)
    ensures |ms| == |url| + 1
    ensures forall k | 0 <= k <= |url| :: ms[k] == ListAt(url, k)
  {
    seq(|url| + 1, k requires 0 <= k <= |url| => ListAt(url, k))
  }

  lemma {:induction false} PlaylistIsFirst(url: string, i: nat)
    requires i <= |url|
    ensures PlaylistFrom(url, i) == FirstSome(Lists(url), i)
    decreases |url| - i
  {
    if ListAt(url, i).None? && i < |url| {
      PlaylistIsFirst(url, i + 1);
    }
  }

  /** The playlist search fails exactly when no position from `i` matches;
      when it succeeds it returns the match at the leftmost matching
      position `j`. */
  lemma PlaylistLeftmost(url: string, i: nat) returns (j: nat)
    requires i <= |url|
    ensures PlaylistFrom(url, i).None? <==> forall k | i <= k <= |url| :: ListAt(url, k).None?
    ensures PlaylistFrom(url, i).Some? ==> i <= j <= |url| && ListAt(url, j) == PlaylistFrom(url, i)
    ensures forall k | i <= k < j :: ListAt(url, k).None?
  {
    var ms := Lists(url);
    PlaylistIsFirst(url, i);
    j := FirstSomeLeftmost(ms, i);
  }

  /** `extract_playlist_id`. */
  function ExtractPlaylistId(url: string): (r: Option<string>)
    ensures r.Some? ==> |r.value| > 0 && forall k | 0 <= k < |r.value| :: IdChar(r.value[k])
  {
    PlaylistFrom(url, 0)
  }

  /** A run of id characters up to the end of `s` is counted whole. */
  lemma {:induction false} RunToEnd(s: string, j: nat)
    requires j <= |s| && forall k | j <= k < |s| :: IdChar(s[k])
    ensures RunLength(s, j) == |s| - j
    decreases |s| - j
  {
    if j < |s| {
      RunToEnd(s, j + 1);
    }
  }

  /** The URL of a playlist page. */
  function PlaylistUrl(id: string): string
  {
    "https://www.youtube.com/playlist?list=" + id
  }

  /** A non-empty playlist id is recovered from its playlist URL. */
  lemma PlaylistUrlRoundTrip(id: string)
    requires |id| > 0 && forall k | 0 <= k < |id| :: IdChar(id[k])
    ensures ExtractPlaylistId(PlaylistUrl(id)) == Some(id)
  {
    var url := PlaylistUrl(id);
    var prefix := "https://www.youtube.com/playlist?list=";
    assert |prefix| == 38;
    assert forall k | 0 <= k < 38 :: url[k] == prefix[k];
    assert forall k | 0 <= k < |id| :: url[38 + k] == id[k];
    RunToEnd(url, 38);
    assert url[38..38 + |id|] == id;
    assert MarkerAt(url, 32) && IdChar(url[38]);
    assert ListAt(url, 32) == Some(id);
    forall k | 0 <= k < 32
      ensures ListAt(url, k).None?
    {
      assert url[k] != '?' && url[k] != '&';
    }
    PlaylistFindsFirst(url, 0, 32);
  }

  /** When position `j` matches and nothing before it does, the playlist
      search returns the match at `j`. */
  lemma {:induction false} PlaylistFindsFirst(url: string, i: nat, j: nat)
    requires i <= j <= |url| && ListAt(url, j).Some?
    requires forall k | i <= k < j :: ListAt(url, k).None?
    ensures PlaylistFrom(url, i) == ListAt(url, j)
    decreases j - i
  {
    if i < j {
      PlaylistFindsFirst(url, i + 1, j);
    }
  }

  /** `is_playlist`. */
  predicate IsPlaylist(url: string)
  {
    ExtractPlaylistId(url) != None
  }

  /** A URL is a playlist exactly when it carries a `?list=` or `&list=`
      marker followed by an id character. */
  lemma IsPlaylistIffMarker(url: string)
    ensures IsPlaylist(url) <==> exists i :: 0 <= i < |url| && MarkerAt(url, i) && i + 6 < |url| && IdChar(url[i + 6])
  {
    var j := PlaylistLeftmost(url, 0);
    if IsPlaylist(url) {
      assert MarkerAt(url, j) && j + 6 < |url| && IdChar(url[j + 6]);
    } else {
      forall i | 0 <= i < |url| && MarkerAt(url, i) && i + 6 < |url|
        ensures !IdChar(url[i + 6])
      {
        assert ListAt(url, i).None?;
      }
    }
  }

  /** One entry of the playlist listing. */
  datatype Video = Video(id: string, url: string, title: string)

  /** One line of the listing, as the string-valued fields of its JSON
      object, mapped to a video: a missing id is empty and a missing title
      is the id. */
  function VideoRecord(data: map<string, string>): (v: Video)
    ensures v.url == WatchUrl(v.id)
    ensures v.id == (if "id" in data then data["id"] else "")
    ensures v.title == (if "title" in data then data["title"] else v.id)
  {
    var id := if "id" in data then data["id"] else "";
    Video(id, WatchUrl(id), if "title" in data then data["title"] else id)
  }

  /** The loop that builds the list of videos, one per listing line. */
  method PlaylistVideos(listing: seq<map<string, string>>) returns (videos: seq<Video>)
    ensures |videos| == |listing|
    ensures forall k | 0 <= k < |listing| :: videos[k] == VideoRecord(listing[k])
  {
    videos := [];
    for k := 0 to |listing|
      invariant |videos| == k
      invariant forall m | 0 <= m < k :: videos[m] == VideoRecord(listing[m])
    {
      videos := videos + [VideoRecord(listing[k])];
    }
  }

  /** A playlist entry with a valid id leads back to that id through its URL. */
  lemma {:induction false} RecordUrlRoundTrip(data: map<string, string>)
    requires "id" in data && ValidVideoId(data["id"])
    ensures ExtractVideoId(VideoRecord(data).url) == Ok(data["id"])
  {
    WatchUrlRoundTrip(data["id"]);
  }
}

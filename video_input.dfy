/**
 * frontend/src/components/instructor/videoInput.tsx: recognising YouTube and
 * Vimeo links, rewriting them to embed URLs, and the input's error state.
 */
module VideoInput {
  import opened Common
  import opened Text

  const YoutubeEmbed: string := "https://www.youtube.com/embed/"
  const VimeoPlayer: string := "https://player.vimeo.com/video/"
  const InvalidUrlMessage: string := "Please enter a valid YouTube or Vimeo URL"

  /** `validateUrl(url)`: one of the five link shapes occurs somewhere in the text. */
  function ValidateUrl(url: string): bool {
    || Contains(url, "youtube.com/watch?v=") || Contains(url, "youtu.be/") || Contains(url, "youtube.com/embed/")
    || Contains(url, "vimeo.com/") || Contains(url, "player.vimeo.com/video/")
  }

  /** The Vimeo player alternative adds nothing: every player URL contains `vimeo.com/`. */
  lemma PlayerPatternSubsumed(url: string)
    ensures ValidateUrl(url) <==>
      Contains(url, "youtube.com/watch?v=") || Contains(url, "youtu.be/") || Contains(url, "youtube.com/embed/")
      || Contains(url, "vimeo.com/")
  {
    if Contains(url, "player.vimeo.com/video/") {
      assert "player.vimeo.com/video/"[7..17] == "vimeo.com/";
      ContainsPiece(url, "player.vimeo.com/video/", 7, "vimeo.com/");
    }
  }

  /** `s.split(marker)[1]?.split(stop)[0]`, with `undefined` rendered as text. */
  function PieceAfter(s: string, marker: string, stop: string): string
    requires |marker| > 0 && |stop| > 0
  {
    var parts := Split(s, marker);
    if |parts| >= 2 then Split(parts[1], stop)[0] else "undefined"
  }

  /**
   * The piece found after the first `marker` at `i`: it is the text right
   * after that occurrence, up to the first `stop`, the next `marker` or the end.
   */
  ghost predicate PieceAt(s: string, marker: string, stop: string, i: nat)
    requires |marker| > 0 && |stop| > 0
  {
    i + |marker| <= |s| && PieceShape(PieceAfter(s, marker, stop), s[i + |marker|..], marker, stop)
  }

  /** `id` is a prefix of `rest` free of `stop` and `marker`, ending where `rest` ends or has one of them. */
  ghost predicate PieceShape(id: string, rest: string, marker: string, stop: string) {
    && id <= rest && !Contains(id, stop) && !Contains(id, marker)
    && (|id| == |rest| || OccursAt(rest, stop, |id|) || OccursAt(rest, marker, |id|))
  }

  /** Without `marker` the piece is the text `undefined`; with it, the piece after its first occurrence. */
  lemma PieceAfterSpec(s: string, marker: string, stop: string)
    requires |marker| > 0 && |stop| > 0
    ensures IndexOf(s, marker).None? ==> PieceAfter(s, marker, stop) == "undefined"
    ensures IndexOf(s, marker).Some? ==> PieceAt(s, marker, stop, IndexOf(s, marker).value)
  {
    match IndexOf(s, marker)
    case None =>
    case Some(i) => PieceAfterFirst(s, marker, stop, i);
  }

  /** After the first `marker` at `i`, the piece is the first `stop`-piece of the first `marker`-piece of the rest. */
  lemma PieceIsSecondHead(s: string, marker: string, stop: string, i: nat)
    requires |marker| > 0 && |stop| > 0 && IndexOf(s, marker) == Some(i)
    ensures PieceAfter(s, marker, stop) == Split(Split(s[i + |marker|..], marker)[0], stop)[0]
  {
    var parts := Split(s, marker);
    SplitSecond(s, marker);
    assert |parts| >= 2 && parts[1] == Split(s[i + |marker|..], marker)[0];
    assert PieceAfter(s, marker, stop) == Split(parts[1], stop)[0];
  }

  lemma PieceAfterFirst(s: string, marker: string, stop: string, i: nat)
    requires |marker| > 0 && |stop| > 0 && IndexOf(s, marker) == Some(i)
    ensures PieceAt(s, marker, stop, i)
  {
    var rest := s[i + |marker|..];
    var h := Split(rest, marker)[0];
    var id := Split(h, stop)[0];
    PieceIsSecondHead(s, marker, stop, i);
    assert h <= rest && !Contains(h, marker) && (|h| == |rest| || OccursAt(rest, marker, |h|)) by {
      SplitHead(rest, marker);
    }
    assert id <= h && !Contains(id, stop) && (|id| == |h| || OccursAt(h, stop, |id|)) by {
      SplitHead(h, stop);
    }
    PieceBounds(id, h, rest, stop, marker);
  }

  /** `id` ends where `h` has `stop` or ends; `h` ends where `rest` has `marker` or ends. */
  lemma PieceBounds(id: string, h: string, rest: string, stop: string, marker: string)
    requires id <= h <= rest && !Contains(h, marker) && !Contains(id, stop)
    requires |h| == |rest| || OccursAt(rest, marker, |h|)
    requires |id| == |h| || OccursAt(h, stop, |id|)
    ensures PieceShape(id, rest, marker, stop)
  {
    NotContainsPrefix(id, h, marker);
    if |id| != |h| {
      assert rest[|id|..|id| + |stop|] == h[|id|..|id| + |stop|];
    }
  }

  predicate IsDigit(c: char) {
    '0' <= c <= '9'
  }

  /** The longest run of digits at the start of `s`: what `(\d+)` captures. */
  function DigitRun(s: string): (d: string)
    ensures d <= s
    ensures forall k :: 0 <= k < |d| ==> IsDigit(d[k])
    ensures |d| == |s| || !IsDigit(s[|d|])
  {
    if |s| == 0 || !IsDigit(s[0]) then "" else [s[0]] + DigitRun(s[1..])
  }

  /** `/vimeo\.com\/(\d+)/` matches at `i`. */
  ghost predicate VimeoAt(s: string, i: int) {
    OccursAt(s, "vimeo.com/", i) && i + 10 < |s| && IsDigit(s[i + 10])
  }

  /** The leftmost match of `/vimeo\.com\/(\d+)/`, as `String.prototype.match` finds it. */
  function VimeoMatch(s: string): (r: Option<nat>)
    ensures r.Some? ==> VimeoAt(s, r.value)
    ensures r.Some? ==> forall j :: 0 <= j < r.value ==> !VimeoAt(s, j)
    ensures r.None? ==> forall j :: !VimeoAt(s, j)
    decreases |s|
  {
    if |s| < 11 then None
    else if s[..10] == "vimeo.com/" && IsDigit(s[10]) then Some(0)
    else
      var rest := VimeoMatch(s[1..]);
      assert !VimeoAt(s, 0);
      forall j | 1 <= j ensures VimeoAt(s, j) <==> VimeoAt(s[1..], j - 1) {
        if j + 10 <= |s| {
          assert s[1..][j - 1..j - 1 + 10] == s[j..j + 10];
        }
      }
      match rest
      case None => None
      case Some(k) => Some(k + 1)
  }

  /** The captured id, or the text `undefined` when nothing matches. */
  function VimeoId(s: string): string {
    match VimeoMatch(s)
    case Some(i) => DigitRun(s[i + 10..])
    case None => "undefined"
  }

  /** `getEmbedUrl(url)` */
  function GetEmbedUrl(url: string): string {
    if Contains(url, "youtube.com/watch?v=") then YoutubeEmbed + PieceAfter(url, "watch?v=", "&")
    else if Contains(url, "youtu.be/") then YoutubeEmbed + PieceAfter(url, "youtu.be/", "?")
    else if Contains(url, "vimeo.com/") then VimeoPlayer + VimeoId(url)
    else url
  }

  /** The first `vimeo.com/` that digits follow, when no `v` comes before it. */
  lemma VimeoFirst(s: string, i: nat)
    requires VimeoAt(s, i) && 'v' !in s[..i]
    ensures VimeoMatch(s) == Some(i)
  {
    forall j | 0 <= j < i ensures !VimeoAt(s, j) {
      if j + 10 <= |s| {
        assert s[j..j + 10][0] == s[j] == s[..i][j];
      }
    }
  }

  /** The captured Vimeo id: digits right after the matched `vimeo.com/`, as many as there are. */
  lemma VimeoIdSpec(url: string)
    ensures match VimeoMatch(url)
      case None => VimeoId(url) == "undefined"
      case Some(i) =>
        var id := VimeoId(url);
        && |id| > 0 && (forall k :: 0 <= k < |id| ==> IsDigit(id[k]))
        && url[i..i + 10] == "vimeo.com/" && i + 10 + |id| <= |url| && url[i + 10..i + 10 + |id|] == id
        && (i + 10 + |id| == |url| || !IsDigit(url[i + 10 + |id|]))
  {
    match VimeoMatch(url)
    case None =>
    case Some(i) => RunAt(url, i + 10);
  }

  /** The digit run starting at a digit of `s`, in place. */
  lemma RunAt(s: string, start: nat)
    requires start < |s| && IsDigit(s[start])
    ensures var id := DigitRun(s[start..]);
      && |id| > 0 && start + |id| <= |s| && s[start..start + |id|] == id
      && (start + |id| == |s| || !IsDigit(s[start + |id|]))
  {
    var t := s[start..];
    var id := DigitRun(t);
    assert t[0] == s[start];
    assert id == t[..|id|];
    if start + |id| < |s| {
      assert t[|id|] == s[start + |id|];
    }
  }

  /**
   * A `youtube.com/watch?v=` link wins over every other shape; its id is the
   * text after the first `watch?v=`, up to the first `&` (or a further
   * `watch?v=`, or the end).
   */
  lemma YoutubeWatchEmbed(url: string)
    requires Contains(url, "youtube.com/watch?v=")
    ensures Contains(url, "watch?v=")
    ensures var rest := url[IndexOf(url, "watch?v=").value + 8..];
      var id := PieceAfter(url, "watch?v=", "&");
      && GetEmbedUrl(url) == YoutubeEmbed + id
      && id <= rest && !Contains(id, "&")
      && (|id| == |rest| || rest[|id|] == '&' || OccursAt(rest, "watch?v=", |id|))
  {
    assert Contains(url, "watch?v=") by {
      assert "youtube.com/watch?v="[12..20] == "watch?v=";
      ContainsPiece(url, "youtube.com/watch?v=", 12, "watch?v=");
    }
    var rest := url[IndexOf(url, "watch?v=").value + 8..];
    var id := PieceAfter(url, "watch?v=", "&");
    assert GetEmbedUrl(url) == YoutubeEmbed + id;
    assert PieceShape(id, rest, "watch?v=", "&") by {
      PieceAfterSpec(url, "watch?v=", "&");
    }
    PieceShapeChar(id, rest, "watch?v=", '&');
  }

  /** A `youtu.be/` link, failing the first test, keeps the text after `youtu.be/` up to the first `?`. */
  lemma ShortLinkEmbed(url: string)
    requires !Contains(url, "youtube.com/watch?v=") && Contains(url, "youtu.be/")
    ensures var rest := url[IndexOf(url, "youtu.be/").value + 9..];
      var id := PieceAfter(url, "youtu.be/", "?");
      && GetEmbedUrl(url) == YoutubeEmbed + id
      && id <= rest && !Contains(id, "?")
      && (|id| == |rest| || rest[|id|] == '?' || OccursAt(rest, "youtu.be/", |id|))
  {
    var rest := url[IndexOf(url, "youtu.be/").value + 9..];
    var id := PieceAfter(url, "youtu.be/", "?");
    assert GetEmbedUrl(url) == YoutubeEmbed + id;
    assert PieceShape(id, rest, "youtu.be/", "?") by {
      PieceAfterSpec(url, "youtu.be/", "?");
    }
    PieceShapeChar(id, rest, "youtu.be/", '?');
  }

  /** With a one-character stop, the piece ends at that character, the next marker or the end. */
  lemma PieceShapeChar(id: string, rest: string, marker: string, c: char)
    requires PieceShape(id, rest, marker, [c])
    ensures id <= rest && !Contains(id, [c])
    ensures |id| == |rest| || rest[|id|] == c || OccursAt(rest, marker, |id|)
  {
    if OccursAt(rest, [c], |id|) {
      assert rest[|id|..|id| + 1][0] == rest[|id|];
    }
  }

  /**
   * A `vimeo.com/` link, failing both YouTube tests, becomes the player URL
   * of the digits after the leftmost `vimeo.com/` that digits follow, or of
   * `undefined` when there is no such place.
   */
  lemma VimeoEmbed(url: string)
    requires !Contains(url, "youtube.com/watch?v=") && !Contains(url, "youtu.be/") && Contains(url, "vimeo.com/")
    ensures var id := VimeoId(url);
      && GetEmbedUrl(url) == VimeoPlayer + id
      && match VimeoMatch(url)
        case None => id == "undefined"
        case Some(i) =>
          && |id| > 0 && (forall k :: 0 <= k < |id| ==> IsDigit(id[k]))
          && url[i..i + 10] == "vimeo.com/" && i + 10 + |id| <= |url| && url[i + 10..i + 10 + |id|] == id
          && (i + 10 + |id| == |url| || !IsDigit(url[i + 10 + |id|]))
  {
    VimeoIdSpec(url);
  }

  /** Any other text is returned as it is, `youtube.com/embed/` links included. */
  lemma OtherUrlsUnchanged(url: string)
    requires !Contains(url, "youtube.com/watch?v=") && !Contains(url, "youtu.be/") && !Contains(url, "vimeo.com/")
    ensures GetEmbedUrl(url) == url
  {
  }

  /** The characters of a YouTube video id. */
  predicate IdChar(c: char) {
    'a' <= c <= 'z' || 'A' <= c <= 'Z' || '0' <= c <= '9' || c == '_' || c == '-'
  }

  /** When the text after the first `marker` has neither `marker` nor `stop`, it is the whole piece. */
  lemma CleanPiece(s: string, marker: string, stop: string, i: nat)
    requires |marker| > 0 && |stop| > 0 && IndexOf(s, marker) == Some(i)
    requires !Contains(s[i + |marker|..], marker) && !Contains(s[i + |marker|..], stop)
    ensures PieceAfter(s, marker, stop) == s[i + |marker|..]
  {
    var rest := s[i + |marker|..];
    PieceIsSecondHead(s, marker, stop, i);
    SplitHead(rest, marker);
    SplitHead(rest, stop);
  }

  /** Where `watch?v=` and the id sit in a canonical watch link. */
  lemma WatchLinkShape(id: string)
    ensures var s := "https://www.youtube.com/watch?v=" + id;
      && Contains(s, "youtube.com/watch?v=") && IndexOf(s, "watch?v=") == Some(24) && s[32..] == id
  {
    var s := "https://www.youtube.com/watch?v=" + id;
    assert s[12..32] == "youtube.com/watch?v=";
    assert OccursAt(s, "youtube.com/watch?v=", 12);
    ContainsIff(s, "youtube.com/watch?v=");
    WatchMarkerAt(s, id);
  }

  lemma WatchMarkerAt(s: string, id: string)
    requires s == "https://www.youtube.com/watch?v=" + id
    ensures IndexOf(s, "watch?v=") == Some(24)
  {
    assert s[24..32] == "watch?v=";
    assert s[..29] == "https://www.youtube.com/watch";
    assert '?' !in "https://www.youtube.com/watch";
    IndexOfAt(s, "watch?v=", 24, 5);
  }

  /** The canonical watch link of an id is rewritten to the embed link of that id. */
  lemma WatchLinkRoundTrip(id: string)
    requires forall k :: 0 <= k < |id| ==> IdChar(id[k])
    ensures GetEmbedUrl("https://www.youtube.com/watch?v=" + id) == YoutubeEmbed + id
  {
    var s := "https://www.youtube.com/watch?v=" + id;
    WatchLinkShape(id);
    MissingCharNotContained(id, "watch?v=", 5);
    MissingCharNotContained(id, "&", 0);
    CleanPiece(s, "watch?v=", "&", 24);
  }

  /** Where `youtu.be/` and the id sit in a canonical short link. */
  lemma ShortLinkShape(id: string)
    requires forall k :: 0 <= k < |id| ==> IdChar(id[k])
    ensures var s := "https://youtu.be/" + id;
      && !Contains(s, "youtube.com/watch?v=") && IndexOf(s, "youtu.be/") == Some(8) && s[17..] == id
  {
    var s := "https://youtu.be/" + id;
    assert '?' !in "https://youtu.be/";
    MissingCharNotContained(s, "youtube.com/watch?v=", 17);
    assert s[8..17] == "youtu.be/";
    assert OccursAt(s, "youtu.be/", 8);
    assert s[..8] == "https://";
    assert 'y' !in "https://";
    IndexOfAt(s, "youtu.be/", 8, 0);
  }

  /** The canonical short link of an id is rewritten to the embed link of that id. */
  lemma ShortLinkRoundTrip(id: string)
    requires forall k :: 0 <= k < |id| ==> IdChar(id[k])
    ensures GetEmbedUrl("https://youtu.be/" + id) == YoutubeEmbed + id
  {
    var s := "https://youtu.be/" + id;
    ShortLinkShape(id);
    MissingCharNotContained(id, "youtu.be/", 5);
    MissingCharNotContained(id, "?", 0);
    CleanPiece(s, "youtu.be/", "?", 8);
  }

  /** Neither YouTube test fires on a text without `w` and `b`. */
  lemma NotYoutube(s: string)
    requires 'w' !in s && 'b' !in s
    ensures !Contains(s, "youtube.com/watch?v=") && !Contains(s, "youtu.be/")
  {
    MissingCharNotContained(s, "youtube.com/watch?v=", 12);
    MissingCharNotContained(s, "youtu.be/", 6);
  }

  /** A string of digits is its own digit run. */
  lemma {:induction false} DigitRunAll(d: string)
    requires forall k :: 0 <= k < |d| ==> IsDigit(d[k])
    ensures DigitRun(d) == d
  {
    if |d| > 0 {
      DigitRunAll(d[1..]);
    }
  }

  /** The canonical Vimeo link of a numeric id is rewritten to the player link of that id. */
  lemma VimeoLinkRoundTrip(d: string)
    requires |d| > 0 && forall k :: 0 <= k < |d| ==> IsDigit(d[k])
    ensures GetEmbedUrl("https://vimeo.com/" + d) == VimeoPlayer + d
  {
    var s := "https://vimeo.com/" + d;
    assert 'w' !in "https://vimeo.com/" && 'b' !in "https://vimeo.com/";
    NotYoutube(s);
    assert s[8..18] == "vimeo.com/";
    assert OccursAt(s, "vimeo.com/", 8);
    ContainsIff(s, "vimeo.com/");
    assert s[18] == d[0];
    assert s[..8] == "https://";
    assert 'v' !in "https://";
    VimeoFirst(s, 8);
    assert s[18..] == d;
    DigitRunAll(d);
  }

  /** A player link passes validation and no YouTube test, and contains `vimeo.com/`. */
  lemma PlayerLinkShape(d: string)
    requires forall k :: 0 <= k < |d| ==> IsDigit(d[k])
    ensures var s := VimeoPlayer + d;
      && !Contains(s, "youtube.com/watch?v=") && !Contains(s, "youtu.be/")
      && OccursAt(s, "vimeo.com/", 15) && Contains(s, "vimeo.com/") && ValidateUrl(s)
  {
    var s := VimeoPlayer + d;
    assert 'w' !in VimeoPlayer && 'b' !in VimeoPlayer;
    NotYoutube(s);
    PlayerLinkHasVimeo(s, d);
  }

  lemma PlayerLinkHasVimeo(s: string, d: string)
    requires s == VimeoPlayer + d
    ensures OccursAt(s, "vimeo.com/", 15) && Contains(s, "vimeo.com/")
  {
    assert s[15..25] == "vimeo.com/";
    assert OccursAt(s, "vimeo.com/", 15);
    ContainsIff(s, "vimeo.com/");
  }

  /** `vimeo.com/` followed by a digit occurs nowhere in a player link. */
  lemma PlayerLinkNoMatch(d: string)
    requires forall k :: 0 <= k < |d| ==> IsDigit(d[k])
    ensures forall j :: !VimeoAt(VimeoPlayer + d, j)
  {
    var s := VimeoPlayer + d;
    assert forall k :: 0 <= k < 31 ==> !IsDigit(VimeoPlayer[k]);
    forall j ensures !VimeoAt(s, j) {
      if 0 <= j && j + 10 < |s| {
        if j + 10 < 31 {
          assert s[j + 10] == VimeoPlayer[j + 10];
        } else if j + 9 >= 31 {
          assert s[j..j + 10][9] == s[j + 9] == d[j + 9 - 31];
        } else {
          assert s[j..j + 10][0] == s[21] == 'c';
        }
      }
    }
  }

  /**
   * As written, a player link, which `validateUrl` accepts, is rewritten to
   * the player link of `undefined`: its `vimeo.com/` is followed by `video/`,
   * not by a digit.
   */
  lemma PlayerLinkLost(d: string)
    requires forall k :: 0 <= k < |d| ==> IsDigit(d[k])
    ensures ValidateUrl(VimeoPlayer + d)
    ensures GetEmbedUrl(VimeoPlayer + d) == VimeoPlayer + "undefined"
  {
    PlayerLinkShape(d);
    PlayerLinkNoMatch(d);
    assert VimeoMatch(VimeoPlayer + d).None?;
  }

  /** Applied to its own Vimeo output, the rewrite as written loses the id. */
  lemma EmbedTwiceLosesId(d: string)
    requires |d| > 0 && forall k :: 0 <= k < |d| ==> IsDigit(d[k])
    ensures GetEmbedUrl(GetEmbedUrl("https://vimeo.com/" + d)) == VimeoPlayer + "undefined"
  {
    VimeoLinkRoundTrip(d);
    PlayerLinkLost(d);
  }

  /** `/vimeo\.com\/(?:video\/)?(\d+)/` matches at `i`: the pattern that player links need. */
  ghost predicate CorrectedVimeoAt(s: string, i: int) {
    && OccursAt(s, "vimeo.com/", i)
    && ((i + 10 < |s| && IsDigit(s[i + 10])) || (OccursAt(s, "video/", i + 10) && i + 16 < |s| && IsDigit(s[i + 16])))
  }

  /** The leftmost match of the corrected pattern. */
  function CorrectedVimeoMatch(s: string): (r: Option<nat>)
    ensures r.Some? ==> CorrectedVimeoAt(s, r.value)
    ensures r.Some? ==> forall j :: 0 <= j < r.value ==> !CorrectedVimeoAt(s, j)
    ensures r.None? ==> forall j :: !CorrectedVimeoAt(s, j)
    decreases |s|
  {
    if |s| < 11 then None
    else if s[..10] == "vimeo.com/" && (IsDigit(s[10]) || (|s| > 16 && s[10..16] == "video/" && IsDigit(s[16]))) then Some(0)
    else
      var rest := CorrectedVimeoMatch(s[1..]);
      assert !CorrectedVimeoAt(s, 0);
      forall j | 1 <= j ensures CorrectedVimeoAt(s, j) <==> CorrectedVimeoAt(s[1..], j - 1) {
        if j + 10 <= |s| {
          assert s[1..][j - 1..j - 1 + 10] == s[j..j + 10];
        }
        if j + 16 <= |s| {
          assert s[1..][j + 9..j + 15] == s[j + 10..j + 16];
        }
      }
      match rest
      case None => None
      case Some(k) => Some(k + 1)
  }

  /** The digits the corrected pattern captures: after `vimeo.com/`, or after `vimeo.com/video/`. */
  function CorrectedVimeoId(s: string): string {
    match CorrectedVimeoMatch(s)
    case Some(i) => if IsDigit(s[i + 10]) then DigitRun(s[i + 10..]) else DigitRun(s[i + 16..])
    case None => "undefined"
  }

  /** `getEmbedUrl` with the corrected Vimeo pattern. */
  function GetEmbedUrlCorrected(url: string): string {
    if Contains(url, "youtube.com/watch?v=") || Contains(url, "youtu.be/") || !Contains(url, "vimeo.com/") then
      GetEmbedUrl(url)
    else VimeoPlayer + CorrectedVimeoId(url)
  }

  /** The first place the corrected pattern matches, when no `v` comes before it. */
  lemma CorrectedVimeoFirst(s: string, i: nat)
    requires CorrectedVimeoAt(s, i) && 'v' !in s[..i]
    ensures CorrectedVimeoMatch(s) == Some(i)
  {
    forall j | 0 <= j < i ensures !CorrectedVimeoAt(s, j) {
      if j + 10 <= |s| {
        assert s[j..j + 10][0] == s[j] == s[..i][j];
      }
    }
  }

  /** Corrected, a player link is kept as it is. */
  lemma PlayerLinkKept(d: string)
    requires |d| > 0 && forall k :: 0 <= k < |d| ==> IsDigit(d[k])
    ensures GetEmbedUrlCorrected(VimeoPlayer + d) == VimeoPlayer + d
  {
    var s := VimeoPlayer + d;
    PlayerLinkShape(d);
    PlayerLinkCorrectedMatch(d);
    assert s[31..] == d;
    DigitRunAll(d);
  }

  /** The corrected pattern matches a player link at its `vimeo.com/`, through `video/`. */
  lemma PlayerLinkCorrectedMatch(d: string)
    requires |d| > 0 && forall k :: 0 <= k < |d| ==> IsDigit(d[k])
    ensures var s := VimeoPlayer + d;
      CorrectedVimeoMatch(s) == Some(15) && !IsDigit(s[25])
  {
    var s := VimeoPlayer + d;
    assert s[15..25] == "vimeo.com/";
    assert s[25..31] == "video/";
    assert s[31] == d[0];
    assert s[..15] == "https://player.";
    assert 'v' !in "https://player.";
    CorrectedVimeoFirst(s, 15);
  }

  /** Corrected, canonical Vimeo links are rewritten as before. */
  lemma VimeoLinkRoundTripCorrected(d: string)
    requires |d| > 0 && forall k :: 0 <= k < |d| ==> IsDigit(d[k])
    ensures GetEmbedUrlCorrected("https://vimeo.com/" + d) == VimeoPlayer + d
  {
    var s := "https://vimeo.com/" + d;
    assert 'w' !in "https://vimeo.com/" && 'b' !in "https://vimeo.com/";
    NotYoutube(s);
    assert s[8..18] == "vimeo.com/";
    assert OccursAt(s, "vimeo.com/", 8);
    ContainsIff(s, "vimeo.com/");
    assert s[18] == d[0];
    assert s[..8] == "https://";
    assert 'v' !in "https://";
    CorrectedVimeoFirst(s, 8);
    assert s[18..] == d;
    DigitRunAll(d);
  }

  /** Corrected, rewriting a Vimeo link twice gives what rewriting it once does. */
  lemma CorrectedVimeoIdempotent(url: string)
    requires !Contains(url, "youtube.com/watch?v=") && !Contains(url, "youtu.be/") && Contains(url, "vimeo.com/")
    requires CorrectedVimeoMatch(url).Some?
    ensures GetEmbedUrlCorrected(GetEmbedUrlCorrected(url)) == GetEmbedUrlCorrected(url)
  {
    var id := CorrectedVimeoId(url);
    assert |id| > 0 && forall k :: 0 <= k < |id| ==> IsDigit(id[k]);
    PlayerLinkKept(id);
  }

  /**
   * The input's error state and the values it has passed to `onChange`.
   * The error is shown exactly when the last value passed on is a non-empty
   * text that `validateUrl` rejects.
   */
  class VideoInputState {
    var validationError: string
    var emitted: seq<string>

    ghost predicate Valid()
      reads this
    {
      && (validationError == "" || validationError == InvalidUrlMessage)
      && (validationError != "" <==> |emitted| > 0 && emitted[|emitted| - 1] != "" && !ValidateUrl(emitted[|emitted| - 1]))
    }

    constructor ()
      ensures Valid() && validationError == "" && emitted == []
    {
      validationError := "";
      emitted := [];
    }

    /** `handleUrlChange(url)`: always pass the text on; flag it iff it is non-empty and invalid. */
    method HandleUrlChange(url: string)
      modifies this
      ensures Valid()
      ensures emitted == old(emitted) + [url]
      ensures validationError == if url != "" && !ValidateUrl(url) then InvalidUrlMessage else ""
    {
      emitted := emitted + [url];
      if url != "" && !ValidateUrl(url) {
        validationError := InvalidUrlMessage;
      } else {
        validationError := "";
      }
    }

    /** The clear button: pass on the empty text and drop the error. */
    method Clear()
      modifies this
      ensures Valid()
      ensures emitted == old(emitted) + [""] && validationError == ""
    {
      emitted := emitted + [""];
      validationError := "";
    }
  }
}

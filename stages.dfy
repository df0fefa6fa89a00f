/**
 * The pipeline stages of VideoScraper as pure transitions: from a task and the
 * services' answers to the URL fetched, the tasks appended, the file written and
 * whether the stage returned or raised. The loops of the source that build
 * successor lists are also given as methods proved against these functions.
 */
module Stages {
  import opened Basics
  import opened Query
  import opened Documents

  const PLAYBYPLAY_URL_BASE := "https://stats.nba.com/stats/playbyplayv2"
  const PLAYBYPLAY_URL_PARAMS := ["EndPeriod", "EndRange", "GameID", "RangeType", "Season", "SeasonType", "StartPeriod", "StartRange"]
  const VIDEO_EVENT_URL_BASE := "https://stats.nba.com/stats/videoevents"
  const VIDEO_EVENT_URL_PARAMS := ["GameEventID", "GameID"]
  const VIDEO_XML_URL_BASE := "https://secure.nba.com/video/wsc/league/"
  const VIDEO_DIR := "vids/"

  /** A pending coroutine of the scraper: which stage to run and its arguments. */
  datatype StageTask =
    | ScoreBoard(dayOffset: Value, leagueID: Value, gameDate: Value)
    | PlayByPlay(filter: PlayFilter, endPeriod: Value, endRange: Value, gameId: Value, rangeType: Value,
                 season: Value, seasonType: Value, startPeriod: Value, startRange: Value)
    | VideoEvent(gameEventId: Value, gameId: Value)
    | VideoInfoXml(gameId: Value, gameEventId: Value, uuid: Value)
    | VideoMp4(gameId: Value, gameEventId: Value, videoUuid: string, videoUrl: string)

  /** How a stage ended: it returned, or it raised an exception. */
  datatype Outcome = Returned | Raised(error: Error)

  /**
   * The effect of running one task: the URLs it requested, the tasks it appended
   * to the scraper's list (in order), the file it wrote under vids/, and its outcome.
   */
  datatype StageRun = StageRun(fetched: seq<string>, pushed: seq<StageTask>,
                               written: Option<(string, seq<byte>)>, outcome: Outcome)

  /** Position of a stage in the pipeline: each stage only appends tasks of the next one. */
  function Rank(t: StageTask): nat {
    match t
    case ScoreBoard(_, _, _) => 0
    case PlayByPlay(_, _, _, _, _, _, _, _, _) => 1
    case VideoEvent(_, _) => 2
    case VideoInfoXml(_, _, _) => 3
    case VideoMp4(_, _, _, _) => 4
  }

  /** The params dict scrapePlayByPlay builds, in the order of its literal. */
  function PlayByPlayParams(t: StageTask): Params
    requires t.PlayByPlay?
  {
    [("EndPeriod", t.endPeriod), ("EndRange", t.endRange), ("GameID", t.gameId), ("RangeType", t.rangeType),
     ("Season", t.season), ("SeasonType", t.seasonType), ("StartPeriod", t.startPeriod), ("StartRange", t.startRange)]
  }

  /** The params dict scrapeVideoEvent builds. */
  function VideoEventParams(gameEventId: Value, gameId: Value): Params {
    [("GameEventID", gameEventId), ("GameID", gameId)]
  }

  /** The manifest URL for a video uuid. */
  function ManifestUrl(uuid: string): string {
    VIDEO_XML_URL_BASE + uuid + ".secure.xml"
  }

  /** The name under which a video is saved. */
  function FileName(uuid: string): string {
    uuid + ".mp4"
  }

  // ---------------------------------------------------------------------------
  // Event filter

  /** A row the filter accepts: its player is in filter['player'] and its type in filter['type']. */
  predicate Matches(f: PlayFilter, play: Row) {
    |play| > 13 && play[13] in f.player && play[2] in f.eventType
  }

  /**
   * playByPlayFilter, evaluated as Python does: play[13] first, which raises
   * IndexError on a row of 13 fields or fewer, and play[2] only when the player matched.
   */
  function PlayByPlayFilter(f: PlayFilter, play: Row): (r: Result<bool>)
    ensures r.Failure? <==> |play| <= 13
    ensures r.Failure? ==> r.error == IndexError
    ensures r.Success? ==> (r.value <==> play[13] in f.player && play[2] in f.eventType)
  {
    if |play| <= 13 then Failure(IndexError)
    else if play[13] !in f.player then Success(false)
    else Success(play[2] in f.eventType)
  }

  // ---------------------------------------------------------------------------
  // The play-by-play loop

  /** The video-event task for a row: gameEventId = play[1], gameId = play[0]. */
  function EventTask(play: Row): StageTask
    requires |play| >= 2
  {
    VideoEvent(play[1], play[0])
  }

  /** What the row loop appended, and whether it ran to the end without raising. */
  datatype Scan = Scan(pushed: seq<StageTask>, ok: bool)

  /**
   * The row loop of scrapePlayByPlay: one task per accepted row; a filter error
   * stops it. It appends only video-event tasks, at most one per row.
   */
  function ScanPlays(f: PlayFilter, rows: seq<Row>): (r: Scan)
    ensures forall t :: t in r.pushed ==> t.VideoEvent?
    ensures |r.pushed| <= |rows|
    decreases |rows|
  {
    if rows == [] then Scan([], true)
    else
      match PlayByPlayFilter(f, rows[0])
      case Failure(_) => Scan([], false)
      case Success(m) =>
        var rest := ScanPlays(f, rows[1..]);
        Scan((if m then [EventTask(rows[0])] else []) + rest.pushed, rest.ok)
  }

  /** Scanning a concatenation: the second part is scanned only if the first ran to the end. */
  lemma {:induction false} ScanAppend(f: PlayFilter, a: seq<Row>, b: seq<Row>)
    ensures ScanPlays(f, a + b) ==
      if ScanPlays(f, a).ok then Scan(ScanPlays(f, a).pushed + ScanPlays(f, b).pushed, ScanPlays(f, b).ok)
      else ScanPlays(f, a)
    decreases |a|
  {
    if a == [] {
      assert a + b == b;
    } else {
      assert (a + b)[0] == a[0];
      assert (a + b)[1..] == a[1..] + b;
      match PlayByPlayFilter(f, a[0]) {
        case Failure(_) =>
        case Success(m) =>
          ScanAppend(f, a[1..], b);
          var head: seq<StageTask> := if m then [EventTask(a[0])] else [];
          assert ScanPlays(f, a) == Scan(head + ScanPlays(f, a[1..]).pushed, ScanPlays(f, a[1..]).ok);
          assert ScanPlays(f, a + b) == Scan(head + ScanPlays(f, a[1..] + b).pushed, ScanPlays(f, a[1..] + b).ok);
      }
    }
  }

  /**
   * Rows are handled in order: a further row appends its task at the end when it
   * matches, appends nothing when it does not, and stops the loop when it is short.
   */
  lemma ScanSnoc(f: PlayFilter, rows: seq<Row>, play: Row)
    ensures ScanPlays(f, rows + [play]) ==
      if !ScanPlays(f, rows).ok then ScanPlays(f, rows)
      else Scan(ScanPlays(f, rows).pushed + (if Matches(f, play) then [EventTask(play)] else []), |play| > 13)
  {
    ScanAppend(f, rows, [play]);
    assert [play][1..] == [];
  }

  /** The loop runs to the end exactly when every row has a field 13. */
  lemma {:induction false} ScanOkIff(f: PlayFilter, rows: seq<Row>)
    ensures ScanPlays(f, rows).ok <==> forall i :: 0 <= i < |rows| ==> |rows[i]| > 13
    decreases |rows|
  {
    if rows != [] {
      ScanOkIff(f, rows[1..]);
      assert forall i :: 1 <= i < |rows| ==> rows[i] == rows[1..][i - 1];
    }
  }

  /** When the loop runs to the end, the appended tasks are exactly those of the accepted rows. */
  lemma {:induction false} ScanMembers(f: PlayFilter, rows: seq<Row>, t: StageTask)
    requires ScanPlays(f, rows).ok
    ensures t in ScanPlays(f, rows).pushed <==>
      exists i :: 0 <= i < |rows| && Matches(f, rows[i]) && t == EventTask(rows[i])
    decreases |rows|
  {
    if rows != [] {
      ScanMembers(f, rows[1..], t);
      if exists i :: 1 <= i < |rows| && Matches(f, rows[i]) && t == EventTask(rows[i]) {
        var i :| 1 <= i < |rows| && Matches(f, rows[i]) && t == EventTask(rows[i]);
        assert rows[1..][i - 1] == rows[i];
      }
    }
  }

  /**
   * A short row raises after the tasks of the accepted rows before it were
   * already appended: those stay, later rows are never looked at.
   */
  lemma StopsAtFirstShortRow(f: PlayFilter, rows: seq<Row>, k: nat)
    requires k < |rows| && |rows[k]| <= 13
    requires forall i :: 0 <= i < k ==> |rows[i]| > 13
    ensures ScanPlays(f, rows) == Scan(ScanPlays(f, rows[..k]).pushed, false)
  {
    assert rows == rows[..k] + rows[k..];
    ScanOkIff(f, rows[..k]);
    ScanAppend(f, rows[..k], rows[k..]);
    assert rows[k..][0] == rows[k];
  }

  /** The loop at scrapePlayByPlay: for each row, append its task if the filter accepts it. */
  method ScanPlayByPlay(f: PlayFilter, rows: seq<Row>) returns (s: Scan)
    ensures s == ScanPlays(f, rows)
  {
    var pushed: seq<StageTask> := [];
    for i := 0 to |rows|
      invariant ScanPlays(f, rows[..i]) == Scan(pushed, true)
    {
      var m := PlayByPlayFilter(f, rows[i]);
      assert rows[..i + 1] == rows[..i] + [rows[i]];
      ScanSnoc(f, rows[..i], rows[i]);
      if m.Failure? {
        assert rows == rows[..i] + rows[i..];
        assert rows[i..][0] == rows[i];
        ScanAppend(f, rows[..i], rows[i..]);
        return Scan(pushed, false);
      }
      if m.value {
        pushed := pushed + [EventTask(rows[i])];
      }
    }
    assert rows[..|rows|] == rows;
    return Scan(pushed, true);
  }

  /** The end-to-end example: a row of player 202695 with type 3 yields one task, a row of player 999999 none. */
  lemma PlayByPlayExample(r1: Row, r2: Row)
    requires |r1| == 14 && r1[0] == Str("0021800549") && r1[1] == Int(77) && r1[2] == Int(3) && r1[13] == Int(202695)
    requires |r2| == 14 && r2[13] == Int(999999)
    ensures ScanPlays(PlayFilter({Int(202695)}, {Int(1), Int(2), Int(3), Int(4), Int(5)}), [r1, r2])
      == Scan([VideoEvent(Int(77), Str("0021800549"))], true)
  {
    var f := PlayFilter({Int(202695)}, {Int(1), Int(2), Int(3), Int(4), Int(5)});
    assert [r1, r2][1..] == [r2];
    assert [r2][1..] == [];
    assert PlayByPlayFilter(f, r1) == Success(true);
    assert PlayByPlayFilter(f, r2) == Success(false);
    assert ScanPlays(f, [r2]) == Scan([], true);
  }

  // ---------------------------------------------------------------------------
  // The manifest loop

  /** `needle` occurs in `haystack` starting at position `i`. */
  predicate OccursAt(haystack: string, needle: string, i: int) {
    0 <= i <= |haystack| - |needle| && haystack[i..i + |needle|] == needle
  }

  /** `needle in haystack` on strings. */
  predicate Contains(haystack: string, needle: string) {
    exists i :: 0 <= i <= |haystack| - |needle| && OccursAt(haystack, needle, i)
  }

  /** A file URL the manifest stage accepts: on turner.com and in 1080 resolution. */
  predicate Accepted(text: string) {
    Contains(text, "turner.com") && Contains(text, "1080")
  }

  /** A string lacking one of the needle's characters does not contain the needle. */
  lemma MissingCharNotContained(haystack: string, needle: string, k: nat)
    requires k < |needle| && needle[k] !in haystack
    ensures !Contains(haystack, needle)
  {
    forall i | 0 <= i <= |haystack| - |needle|
      ensures !OccursAt(haystack, needle, i)
    {
      assert haystack[i..i + |needle|][k] == haystack[i + k];
    }
  }

  /** The '#text' values of a list of elements, in order. */
  function ItemTexts(items: seq<FileItem>): (r: seq<string>)
    ensures forall u :: u in r <==> exists j :: 0 <= j < |items| && items[j].text == Some(u)
    decreases |items|
  {
    if items == [] then []
    else
      var z := items[|items| - 1];
      ItemTexts(items[..|items| - 1]) + (if z.text.Some? then [z.text.value] else [])
  }

  /** Every '#text' value under video.files, in iteration order. */
  function Texts(groups: seq<FileGroup>): (r: seq<string>)
    ensures forall u :: u in r <==> exists i, j :: 0 <= i < |groups| && 0 <= j < |groups[i].items| &&
                                         groups[i].items[j].text == Some(u)
    decreases |groups|
  {
    if groups == [] then []
    else
      var n := |groups| - 1;
      assert forall i :: 0 <= i < n ==> groups[..n][i] == groups[i];
      Texts(groups[..n]) + ItemTexts(groups[n].items)
  }

  /** The accepted texts, in order. */
  function Select(texts: seq<string>): (r: seq<string>)
    ensures |r| <= |texts|
    ensures forall u :: u in r ==> Accepted(u)
    decreases |texts|
  {
    if texts == [] then [] else (if Accepted(texts[0]) then [texts[0]] else []) + Select(texts[1..])
  }

  /** videoMp4Urls: the accepted file URLs of a manifest. */
  function Mp4Urls(groups: seq<FileGroup>): (r: seq<string>)
    ensures forall u :: u in r ==> Accepted(u) && u in Texts(groups)
  {
    SelectMembersAll(Texts(groups));
    Select(Texts(groups))
  }

  lemma {:induction false} SelectAppend(a: seq<string>, b: seq<string>)
    ensures Select(a + b) == Select(a) + Select(b)
    decreases |a|
  {
    if a == [] {
      assert a + b == b;
    } else {
      assert (a + b)[0] == a[0];
      assert (a + b)[1..] == a[1..] + b;
      SelectAppend(a[1..], b);
    }
  }

  /** A URL is selected exactly when it is one of the texts and is accepted. */
  lemma {:induction false} SelectMembers(texts: seq<string>, u: string)
    ensures u in Select(texts) <==> u in texts && Accepted(u)
    decreases |texts|
  {
    if texts != [] {
      SelectMembers(texts[1..], u);
      assert texts == [texts[0]] + texts[1..];
    }
  }

  lemma SelectMembersAll(texts: seq<string>)
    ensures forall u :: u in Select(texts) <==> u in texts && Accepted(u)
  {
    forall u ensures u in Select(texts) <==> u in texts && Accepted(u) {
      SelectMembers(texts, u);
    }
  }

  /**
   * First match, not best match: nothing is selected exactly when no text is
   * accepted, and otherwise the first selected URL is the first accepted text.
   */
  lemma {:induction false} SelectFirst(texts: seq<string>)
    ensures Select(texts) == [] <==> forall k :: 0 <= k < |texts| ==> !Accepted(texts[k])
    ensures Select(texts) != [] ==>
      exists k :: 0 <= k < |texts| && texts[k] == Select(texts)[0] && Accepted(texts[k]) &&
        forall j :: 0 <= j < k ==> !Accepted(texts[j])
    decreases |texts|
  {
    if texts != [] {
      SelectFirst(texts[1..]);
      assert forall k :: 1 <= k < |texts| ==> texts[k] == texts[1..][k - 1];
      if !Accepted(texts[0]) && Select(texts) != [] {
        var k :| 0 <= k < |texts[1..]| && texts[1..][k] == Select(texts[1..])[0] && Accepted(texts[1..][k]) &&
          forall j :: 0 <= j < k ==> !Accepted(texts[1..][j]);
        assert texts[k + 1] == Select(texts)[0];
        assert forall j :: 1 <= j < k + 1 ==> !Accepted(texts[j]) by {
          forall j | 1 <= j < k + 1 ensures !Accepted(texts[j]) {
            assert texts[j] == texts[1..][j - 1];
          }
        }
      }
    }
  }

  /** The URL filter refuses a file on another host. */
  lemma OtherHostRefused()
    ensures !Accepted("https://other.com/v_720.mp4")
  {
    assert "turner.com"[1] == 'u' && 'u' !in "https://other.com/v_720.mp4";
    MissingCharNotContained("https://other.com/v_720.mp4", "turner.com", 1);
  }

  /** The URL filter refuses a turner.com file that is not the 1080 rendition. */
  lemma LowResolutionRefused()
    ensures !Accepted("https://pmd.cdn.turner.com/v_480.mp4")
  {
    assert "1080"[0] == '1' && '1' !in "https://pmd.cdn.turner.com/v_480.mp4";
    MissingCharNotContained("https://pmd.cdn.turner.com/v_480.mp4", "1080", 0);
  }

  /** The URL filter accepts a 1080 file on turner.com. */
  lemma AcceptanceExample()
    ensures Accepted("https://pmd.cdn.turner.com/v_1080.mp4")
  {
    var url := "https://pmd.cdn.turner.com/v_1080.mp4";
    assert url[16..26] == "turner.com";
    assert OccursAt(url, "turner.com", 16);
    assert url[29..33] == "1080";
    assert OccursAt(url, "1080", 29);
  }

  /** Of those three entries, in that order, exactly the last is collected. */
  lemma ManifestExample()
    ensures Select(["https://other.com/v_720.mp4", "https://pmd.cdn.turner.com/v_480.mp4",
                    "https://pmd.cdn.turner.com/v_1080.mp4"]) == ["https://pmd.cdn.turner.com/v_1080.mp4"]
  {
    OtherHostRefused();
    LowResolutionRefused();
    AcceptanceExample();
    var ts := ["https://other.com/v_720.mp4", "https://pmd.cdn.turner.com/v_480.mp4",
               "https://pmd.cdn.turner.com/v_1080.mp4"];
    assert ts[1..] == ["https://pmd.cdn.turner.com/v_480.mp4", "https://pmd.cdn.turner.com/v_1080.mp4"];
    assert ts[1..][1..] == ["https://pmd.cdn.turner.com/v_1080.mp4"];
    assert ts[1..][1..][1..] == [];
  }

  /** What one element contributes to videoMp4Urls. */
  function Found(z: FileItem): seq<string> {
    if z.text.Some? && Accepted(z.text.value) then [z.text.value] else []
  }

  /** Looking at one more element of a group appends what it contributes. */
  lemma ItemStep(before: seq<string>, items: seq<FileItem>, j: nat)
    requires j < |items|
    ensures Select(before + ItemTexts(items[..j + 1])) == Select(before + ItemTexts(items[..j])) + Found(items[j])
  {
    var z := items[j];
    var more := if z.text.Some? then [z.text.value] else [];
    assert items[..j + 1][..j] == items[..j];
    assert ItemTexts(items[..j + 1]) == ItemTexts(items[..j]) + more;
    assert before + ItemTexts(items[..j + 1]) == (before + ItemTexts(items[..j])) + more;
    SelectAppend(before + ItemTexts(items[..j]), more);
    if more != [] {
      assert more[1..] == [];
    }
  }

  /** The texts of one more group follow those of the groups before it. */
  lemma GroupStep(groups: seq<FileGroup>, g: nat)
    requires g < |groups|
    ensures Texts(groups[..g + 1]) == Texts(groups[..g]) + ItemTexts(groups[g].items)
  {
    assert groups[..g + 1][..g] == groups[..g];
  }

  /** The nested loop of scrapeVideoInfoXML that collects videoMp4Urls. */
  method CollectMp4Urls(groups: seq<FileGroup>) returns (urls: seq<string>)
    ensures urls == Mp4Urls(groups)
    ensures forall u :: u in urls <==> u in Texts(groups) && Accepted(u)
  {
    urls := [];
    for g := 0 to |groups|
      invariant urls == Select(Texts(groups[..g]))
    {
      var items := groups[g].items;
      ghost var before := Texts(groups[..g]);
      assert items[..0] == [];
      assert before + ItemTexts(items[..0]) == before;
      for j := 0 to |items|
        invariant urls == Select(before + ItemTexts(items[..j]))
      {
        var z := items[j];
        if z.text.Some? {
          if Accepted(z.text.value) {
            urls := urls + [z.text.value];
          }
        }
        ItemStep(before, items, j);
      }
      assert items[..|items|] == items;
      GroupStep(groups, g);
    }
    assert groups[..|groups|] == groups;
    forall u
      ensures u in urls <==> u in Texts(groups) && Accepted(u)
    {
      SelectMembers(Texts(groups), u);
    }
  }

  // ---------------------------------------------------------------------------
  // The stages

  /** A stage that raised before requesting anything. */
  function Raise(e: Error): StageRun {
    StageRun([], [], None, Raised(e))
  }

  /** scrapePlayByPlay after its request: scan the rows, appending one task per accepted row. */
  function PlayByPlayStep(f: PlayFilter, url: string, response: Fetched<PlayByPlayDoc>): (r: StageRun)
    ensures r.fetched == [url] && r.written == None
    ensures forall t :: t in r.pushed ==> t.VideoEvent?
    ensures response.FetchFailed? ==> r.pushed == [] && r.outcome == Raised(response.error)
  {
    match response
    case FetchFailed(e) => StageRun([url], [], None, Raised(e))
    case Fetched(doc) =>
      match doc.rowSet
      case None => StageRun([url], [], None, Raised(KeyError))
      case Some(rows) =>
        var s := ScanPlays(f, rows);
        StageRun([url], s.pushed, None, if s.ok then Returned else Raised(IndexError))
  }

  /** scrapeVideoEvent after its request: no successor for an empty videoUrls, else one for element 0. */
  function VideoEventStep(gameEventId: Value, gameId: Value, url: string, response: Fetched<VideoEventDoc>): (r: StageRun)
    ensures r.fetched == [url] && r.written == None && |r.pushed| <= 1
    ensures r.pushed != [] ==> (r.outcome == Returned && r.pushed[0].VideoInfoXml? &&
                                r.pushed[0].gameId == gameId && r.pushed[0].gameEventId == gameEventId)
    ensures r.outcome.Raised? ==> r.pushed == []
  {
    match response
    case FetchFailed(e) => StageRun([url], [], None, Raised(e))
    case Fetched(doc) =>
      match doc.videoUrls
      case None => StageRun([url], [], None, Raised(KeyError))
      case Some(videoUrls) =>
        if |videoUrls| == 0 then StageRun([url], [], None, Returned)
        else
          match videoUrls[0].uuid
          case None => StageRun([url], [], None, Raised(KeyError))
          case Some(uuid) => StageRun([url], [VideoInfoXml(gameId, gameEventId, uuid)], None, Returned)
  }

  /** scrapeVideoInfoXML after its request: one download task for the first accepted file URL, if any. */
  function ManifestStep(gameId: Value, gameEventId: Value, uuid: string, url: string,
                        response: Fetched<ManifestDoc>): (r: StageRun)
    ensures r.fetched == [url] && r.written == None && |r.pushed| <= 1
    ensures r.pushed != [] ==> (r.outcome == Returned && r.pushed[0].VideoMp4? &&
                                r.pushed[0].videoUuid == uuid && Accepted(r.pushed[0].videoUrl))
    ensures r.outcome.Raised? ==> r.pushed == []
  {
    match response
    case FetchFailed(e) => StageRun([url], [], None, Raised(e))
    case Fetched(EmptyManifest) => StageRun([url], [], None, Returned)
    case Fetched(Manifest(None)) => StageRun([url], [], None, Raised(KeyError))
    case Fetched(Manifest(Some(groups))) =>
      var urls := Mp4Urls(groups);
      if |urls| == 0 then StageRun([url], [], None, Returned)
      else StageRun([url], [VideoMp4(gameId, gameEventId, uuid, urls[0])], None, Returned)
  }

  /** scrapeVideoMP4: stream the video into vids/{uuid}.mp4; a broken stream leaves what arrived. */
  function DownloadStep(uuid: string, url: string, response: Download): (r: StageRun)
    ensures r.fetched == [url] && r.pushed == []
    ensures r.written.Some? <==> response.Streamed?
    ensures r.written.Some? ==> r.written.value.0 == VIDEO_DIR + uuid + ".mp4"
  {
    assert VIDEO_DIR + FileName(uuid) == VIDEO_DIR + uuid + ".mp4";
    match response
    case ConnectFailed(e) => StageRun([url], [], None, Raised(e))
    case Streamed(data, None) => StageRun([url], [], Some((VIDEO_DIR + FileName(uuid), data)), Returned)
    case Streamed(data, Some(e)) => StageRun([url], [], Some((VIDEO_DIR + FileName(uuid), data)), Raised(e))
  }

  /** Running one task against the services: at most one request, and only a download writes a file. */
  function RunStage(t: StageTask, server: Server): (r: StageRun)
    ensures |r.fetched| <= 1
    ensures r.written.Some? ==> t.VideoMp4?
  {
    match t
    case ScoreBoard(_, _, _) => Raise(NameError)
    case PlayByPlay(f, _, _, _, _, _, _, _, _) =>
      (match RequestUrl(PLAYBYPLAY_URL_BASE, PLAYBYPLAY_URL_PARAMS, PlayByPlayParams(t))
       case Failure(e) => Raise(e)
       case Success(url) => PlayByPlayStep(f, url, server.playByPlay(url)))
    case VideoEvent(gameEventId, gameId) =>
      (match RequestUrl(VIDEO_EVENT_URL_BASE, VIDEO_EVENT_URL_PARAMS, VideoEventParams(gameEventId, gameId))
       case Failure(e) => Raise(e)
       case Success(url) => VideoEventStep(gameEventId, gameId, url, server.videoEvent(url)))
    case VideoInfoXml(gameId, gameEventId, uuid) =>
      if !uuid.Str? then Raise(TypeError)
      else
        (match RequestUrl(ManifestUrl(uuid.s), [], [])
         case Failure(e) => Raise(e)
         case Success(url) => ManifestStep(gameId, gameEventId, uuid.s, url, server.manifest(url)))
    case VideoMp4(_, _, uuid, url) => DownloadStep(uuid, url, server.video(url))
  }

  // ---------------------------------------------------------------------------
  // What each stage does

  /**
   * The request front of the JSON stages: a task whose parameters fail validation
   * raises ValidationError and requests nothing; otherwise it requests exactly the
   * base URL followed by the query string.
   */
  lemma ValidationGate(t: StageTask, server: Server)
    requires t.PlayByPlay? || t.VideoEvent?
    ensures var base := if t.PlayByPlay? then PLAYBYPLAY_URL_BASE else VIDEO_EVENT_URL_BASE;
            var names := if t.PlayByPlay? then PLAYBYPLAY_URL_PARAMS else VIDEO_EVENT_URL_PARAMS;
            var params := if t.PlayByPlay? then PlayByPlayParams(t) else VideoEventParams(t.gameEventId, t.gameId);
            (RunStage(t, server).fetched == [] <==> !AllPresent(names, params)) &&
            (!AllPresent(names, params) ==> RunStage(t, server) == Raise(ValidationError)) &&
            (AllPresent(names, params) ==> RunStage(t, server).fetched == [base + QueryString(params)])
  {
  }

  /** A video-event task with a None argument is refused before any request. */
  lemma NullEventIdRefused(gameId: Value, server: Server)
    ensures RunStage(VideoEvent(Null, gameId), server) == Raise(ValidationError)
  {
    assert !Present(VideoEventParams(Null, gameId), VIDEO_EVENT_URL_PARAMS[0]);
  }

  /**
   * The play-by-play stage appends the tasks of the row loop, also when the loop
   * raises; it returns normally exactly when every row has a field 13, and then the
   * appended tasks are exactly those of the rows the filter accepts.
   */
  lemma PlayByPlayStage(t: StageTask, server: Server, rows: seq<Row>)
    requires t.PlayByPlay?
    requires AllPresent(PLAYBYPLAY_URL_PARAMS, PlayByPlayParams(t))
    requires server.playByPlay(PLAYBYPLAY_URL_BASE + QueryString(PlayByPlayParams(t))) == Fetched(PlayByPlayDoc(Some(rows)))
    ensures RunStage(t, server).pushed == ScanPlays(t.filter, rows).pushed
    ensures RunStage(t, server).outcome == Returned <==> forall i :: 0 <= i < |rows| ==> |rows[i]| > 13
    ensures RunStage(t, server).outcome == Returned ==>
      forall e :: e in RunStage(t, server).pushed <==>
        exists i :: 0 <= i < |rows| && Matches(t.filter, rows[i]) && e == EventTask(rows[i])
  {
    ScanOkIff(t.filter, rows);
    if RunStage(t, server).outcome == Returned {
      forall e ensures e in RunStage(t, server).pushed <==>
        exists i :: 0 <= i < |rows| && Matches(t.filter, rows[i]) && e == EventTask(rows[i])
      {
        ScanMembers(t.filter, rows, e);
      }
    }
  }

  /** The video-event stage: nothing for an empty videoUrls, else one manifest task with element 0's uuid. */
  lemma VideoEventStage(t: StageTask, server: Server, videoUrls: seq<VideoUrl>)
    requires t.VideoEvent?
    requires AllPresent(VIDEO_EVENT_URL_PARAMS, VideoEventParams(t.gameEventId, t.gameId))
    requires server.videoEvent(VIDEO_EVENT_URL_BASE + QueryString(VideoEventParams(t.gameEventId, t.gameId)))
      == Fetched(VideoEventDoc(Some(videoUrls)))
    ensures videoUrls == [] ==> RunStage(t, server).pushed == [] && RunStage(t, server).outcome == Returned
    ensures videoUrls != [] && videoUrls[0].uuid.Some? ==>
      RunStage(t, server).pushed == [VideoInfoXml(t.gameId, t.gameEventId, videoUrls[0].uuid.value)] &&
      RunStage(t, server).outcome == Returned
    ensures videoUrls != [] && videoUrls[0].uuid.None? ==>
      RunStage(t, server).pushed == [] && RunStage(t, server).outcome == Raised(KeyError)
  {
  }

  /**
   * The manifest stage requests the manifest URL unchanged (it has no parameters),
   * appends nothing when no file URL is accepted, and otherwise exactly one download
   * task whose URL is the first accepted text in iteration order.
   */
  lemma ManifestStage(t: StageTask, server: Server, groups: seq<FileGroup>)
    requires t.VideoInfoXml? && t.uuid.Str?
    requires server.manifest(ManifestUrl(t.uuid.s)) == Fetched(Manifest(Some(groups)))
    ensures RunStage(t, server).fetched == [ManifestUrl(t.uuid.s)]
    ensures RunStage(t, server).outcome == Returned
    ensures RunStage(t, server).pushed == [] <==> forall k :: 0 <= k < |Texts(groups)| ==> !Accepted(Texts(groups)[k])
    ensures RunStage(t, server).pushed != [] ==>
      exists k :: 0 <= k < |Texts(groups)| &&
        RunStage(t, server).pushed == [VideoMp4(t.gameId, t.gameEventId, t.uuid.s, Texts(groups)[k])] &&
        Accepted(Texts(groups)[k]) && forall j :: 0 <= j < k ==> !Accepted(Texts(groups)[j])
  {
    NoParamsKeepsUrl(ManifestUrl(t.uuid.s));
    var url := ManifestUrl(t.uuid.s);
    assert RunStage(t, server) == ManifestStep(t.gameId, t.gameEventId, t.uuid.s, url, Fetched(Manifest(Some(groups))));
    SelectFirst(Texts(groups));
  }

  /** A manifest task whose uuid is not a string raises TypeError before any request. */
  lemma NonStringUuidRefused(gameId: Value, gameEventId: Value, uuid: Value, server: Server)
    requires !uuid.Str?
    ensures RunStage(VideoInfoXml(gameId, gameEventId, uuid), server) == Raise(TypeError)
  {
  }

  /** The download stage writes vids/{uuid}.mp4 once connected, even if the stream breaks, and appends nothing. */
  lemma DownloadStage(t: StageTask, server: Server)
    requires t.VideoMp4?
    ensures RunStage(t, server).fetched == [t.videoUrl]
    ensures RunStage(t, server).pushed == []
    ensures RunStage(t, server).written.Some? <==> server.video(t.videoUrl).Streamed?
    ensures RunStage(t, server).written.Some? ==>
      RunStage(t, server).written.value == (VIDEO_DIR + t.videoUuid + ".mp4", server.video(t.videoUrl).data)
    ensures RunStage(t, server).outcome == Returned <==>
      server.video(t.videoUrl).Streamed? && server.video(t.videoUrl).broken.None?
  {
    assert VIDEO_DIR + FileName(t.videoUuid) == VIDEO_DIR + t.videoUuid + ".mp4";
  }

  /** scrapeScoreBoard always raises NameError before requesting anything. */
  lemma ScoreBoardAlwaysRaises(t: StageTask, server: Server)
    requires t.ScoreBoard?
    ensures RunStage(t, server) == Raise(NameError)
  {
  }

  /**
   * Every stage requests at most one URL and appends only tasks of the next stage;
   * only the download stage writes a file; except for the play-by-play row loop a
   * stage appends at most one task, and nothing when it raises.
   */
  lemma SuccessorsFollowPipeline(t: StageTask, server: Server)
    ensures |RunStage(t, server).fetched| <= 1
    ensures forall s :: s in RunStage(t, server).pushed ==> Rank(s) == Rank(t) + 1
    ensures RunStage(t, server).written.Some? ==> t.VideoMp4?
    ensures !t.PlayByPlay? ==> |RunStage(t, server).pushed| <= 1
    ensures !t.PlayByPlay? && RunStage(t, server).outcome.Raised? ==> RunStage(t, server).pushed == []
  {
  }

  /** Whatever its stage and outcome, a task is never put back on the list by its own run. */
  lemma NeverReenqueued(t: StageTask, server: Server)
    ensures t !in RunStage(t, server).pushed
  {
    SuccessorsFollowPipeline(t, server);
  }

  /** The coroutines of VideoScraper, run with the loop methods above. */
  method RunTask(t: StageTask, server: Server) returns (run: StageRun)
    ensures run == RunStage(t, server)
  {
    match t
    case ScoreBoard(_, _, _) =>
      run := Raise(NameError);
    case PlayByPlay(f, _, _, _, _, _, _, _, _) =>
      var url := Scrape(PLAYBYPLAY_URL_BASE, PLAYBYPLAY_URL_PARAMS, PlayByPlayParams(t));
      if url.Failure? {
        return Raise(url.error);
      }
      var response := server.playByPlay(url.value);
      if response.FetchFailed? || response.doc.rowSet.None? {
        return PlayByPlayStep(f, url.value, response);
      }
      var s := ScanPlayByPlay(f, response.doc.rowSet.value);
      run := StageRun([url.value], s.pushed, None, if s.ok then Returned else Raised(IndexError));
    case VideoEvent(gameEventId, gameId) =>
      var url := Scrape(VIDEO_EVENT_URL_BASE, VIDEO_EVENT_URL_PARAMS, VideoEventParams(gameEventId, gameId));
      if url.Failure? {
        return Raise(url.error);
      }
      run := VideoEventStep(gameEventId, gameId, url.value, server.videoEvent(url.value));
    case VideoInfoXml(gameId, gameEventId, uuid) =>
      if !uuid.Str? {
        return Raise(TypeError);
      }
      var scraped := Scrape(ManifestUrl(uuid.s), [], []);
      match scraped {
      case Failure(e) =>
        run := Raise(e);
      case Success(url) =>
        var response := server.manifest(url);
        if response.FetchFailed? || response.doc.EmptyManifest? || response.doc.files.None? {
          return ManifestStep(gameId, gameEventId, uuid.s, url, response);
        }
        var videoMp4Urls := CollectMp4Urls(response.doc.files.value);
        if |videoMp4Urls| == 0 {
          return StageRun([url], [], None, Returned);
        }
        run := StageRun([url], [VideoMp4(gameId, gameEventId, uuid.s, videoMp4Urls[0])], None, Returned);
      }
    case VideoMp4(_, _, uuid, url) =>
      run := DownloadStep(uuid, url, server.video(url));
  }
}

/**
 * The video gallery page of client/src/components/pages/VideoGallery.jsx:
 * which memories count as videos, their order, the category filter, and the
 * `m:ss` rendering of a duration in seconds.
 */
module VideoGallery {
  import opened Wrappers
  import opened Text
  import opened Lists
  import opened Sorting

  /** The memory fields the gallery reads; `date` is in milliseconds since the epoch. */
  datatype VideoMemory = VideoMemory(
    id: int, title: string, date: int, category: string, video: Option<string>,
    mediaType: Option<string>, duration: Option<int>)

  const AllCategories := "Todos"

  /** `m.video || m.media_type === 'video' || m.media_type === 'both'`. */
  predicate IsVideo(m: VideoMemory)
  {
    (m.video.Some? && m.video.value != "") || m.mediaType == Some("video") || m.mediaType == Some("both")
  }

  function VideoTest(): VideoMemory -> bool
  {
    (m: VideoMemory) => IsVideo(m)
  }

  /** `(a, b) => new Date(b.date) - new Date(a.date)`: later dates first. */
  function NewestFirst(): VideoMemory -> seq<int>
  {
    (m: VideoMemory) => [-m.date]
  }

  /** `videos`: the video memories, newest first. */
  function Videos(memories: seq<VideoMemory>): seq<VideoMemory>
  {
    SortBy(Filter(memories, VideoTest()), NewestFirst())
  }

  /** Exactly the video memories, each as often as in the input, with dates never increasing. */
  lemma VideosFacts(memories: seq<VideoMemory>, x: VideoMemory)
    ensures x in Videos(memories) <==> x in memories && IsVideo(x)
    ensures multiset(Videos(memories)) == multiset(Filter(memories, VideoTest()))
    ensures var v := Videos(memories);
            forall i, j :: 0 <= i < j < |v| ==> v[i].date >= v[j].date
  {
    FilterMembership(memories, VideoTest(), x);
    var v := Videos(memories);
    assert x in v <==> x in multiset(v);
    forall i, j | 0 <= i < j < |v| ensures v[i].date >= v[j].date {
      assert LexLe(NewestFirst()(v[i]), NewestFirst()(v[j]));
    }
  }

  function InCategory(filter: string): VideoMemory -> bool
  {
    (m: VideoMemory) => m.category == filter
  }

  /** `filteredVideos`. */
  function FilteredVideos(videos: seq<VideoMemory>, filter: string): seq<VideoMemory>
  {
    if filter == AllCategories then videos else Filter(videos, InCategory(filter))
  }

  /** `Todos` shows every video; any other category the videos of exactly that category, in order. */
  lemma FilteredVideosFacts(videos: seq<VideoMemory>, filter: string, x: VideoMemory)
    ensures filter == AllCategories ==> FilteredVideos(videos, filter) == videos
    ensures filter != AllCategories ==> (x in FilteredVideos(videos, filter) <==> x in videos && x.category == filter)
    ensures IsSubsequence(FilteredVideos(videos, filter), videos)
  {
    FilterMembership(videos, InCategory(filter), x);
    FilterIsSubsequence(videos, InCategory(filter));
    SubsequenceReflexive(videos);
  }

  /** JavaScript's `a % b`: the remainder takes the sign of `a`. */
  function JsRemainder(a: int, b: int): (r: int)
    requires b > 0
    ensures a >= 0 ==> r == a % b
    ensures -b < r < b
  {
    if a >= 0 then a % b else -((-a) % b)
  }

  /** `formatDuration`: `''` for a missing or zero duration, else minutes, a colon and two-digit seconds. */
  function FormatDuration(seconds: Option<int>): string
  {
    if seconds.None? || seconds.value == 0 then ""
    else
      var mins := seconds.value / 60;
      var secs := JsRemainder(seconds.value, 60);
      IntToDecimal(mins) + ":" + PadStart(IntToDecimal(secs), 2, '0')
  }

  /** Reads `m:ss` back into seconds: digits, a colon, and two digits. */
  function ReadDuration(r: string): Option<nat>
  {
    if |r| >= 4 && r[|r| - 3] == ':' && AllDigits(r[..|r| - 3]) && AllDigits(r[|r| - 2..]) then
      Some(ParseDecimal(r[..|r| - 3]) * 60 + ParseDecimal(r[|r| - 2..]))
    else None
  }

  /** The seconds part: two digits that read back as the remainder. */
  lemma {:induction false} SecondsPart(secs: nat)
    requires secs < 60
    ensures var ss := PadStart(NatToDecimal(secs), 2, '0');
            |ss| == 2 && AllDigits(ss) && ParseDecimal(ss) == secs
  {
    var d := NatToDecimal(secs);
    var ss := PadStart(d, 2, '0');
    DecimalRoundTrip(secs);
    if secs < 10 {
      assert ss == ['0'] + d;
      assert ss[..1] == ['0'];
      assert ParseDecimal(ss[..1]) == 0 by {
        assert ss[..1][..0] == [];
      }
    } else {
      assert |d| == 2 by {
        DecimalLength(secs);
      }
      assert ss == d;
    }
  }

  lemma DecimalLength(n: nat)
    requires 10 <= n < 100
    ensures |NatToDecimal(n)| == 2
  {
    assert NatToDecimal(n) == NatToDecimal(n / 10) + [DigitChar(n % 10)];
  }

  /** A rendering split back at its colon. */
  lemma ReadComposed(m: string, ss: string, mins: nat, secs: nat)
    requires |m| >= 1 && AllDigits(m) && |ss| == 2 && AllDigits(ss)
    requires ParseDecimal(m) == mins && ParseDecimal(ss) == secs
    ensures ReadDuration(m + ":" + ss) == Some(mins * 60 + secs)
  {
    var r := m + ":" + ss;
    assert r[..|r| - 3] == m;
    assert r[|r| - 2..] == ss;
    assert r[|r| - 3] == ':';
  }

  /** For a positive duration both parts are non-negative. */
  lemma FormatPositive(seconds: nat)
    requires seconds > 0
    ensures FormatDuration(Some(seconds)) ==
            NatToDecimal(seconds / 60) + ":" + PadStart(NatToDecimal(seconds % 60), 2, '0')
  {
  }

  /** Every positive whole duration renders as `m:ss`, which reads back as the same number of seconds. */
  lemma FormatDurationRoundTrip(seconds: nat)
    requires seconds > 0
    ensures ReadDuration(FormatDuration(Some(seconds))) == Some(seconds)
  {
    var mins, secs := seconds / 60, seconds % 60;
    assert mins * 60 + secs == seconds;
    var m := NatToDecimal(mins);
    var ss := PadStart(NatToDecimal(secs), 2, '0');
    FormatPositive(seconds);
    SecondsPart(secs);
    DecimalRoundTrip(mins);
    ReadComposed(m, ss, mins, secs);
  }

  /** Nothing is shown for a missing or zero duration. */
  lemma FormatDurationEmpty(seconds: Option<int>)
    ensures FormatDuration(seconds) == "" <==> seconds.None? || seconds.value == 0
  {
    if seconds.Some? && seconds.value != 0 {
      assert |FormatDuration(seconds)| >= 2;
    }
  }
}

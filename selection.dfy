/** Stream selection in `download_video` and `download_sound`: the quality
    ceiling applied to the fixed list of resolution labels, the scan for the
    first label that has streams, the vp9 preference, and "last after a
    stable sort" by frame rate or audio bitrate. The streams pytube offers
    for a video are given as a sequence of records in pytube's order. */
module Selection {
  import opened Wrappers
  import Decimal

  /** `RESOLUTIONS`, from the highest to the lowest. */
  const Resolutions: seq<string> := ["2160p", "1440p", "1080p", "720p", "480p", "360p", "240p", "144p"]

  /** The heights `RESOLUTIONS` names, in the same order. */
  const Heights: seq<nat> := [2160, 1440, 1080, 720, 480, 360, 240, 144]

  /** The video codec preferred within one resolution. */
  const Vp9: string := "vp9"

  /** What the model keeps of a pytube stream: its resolution label (absent
      for audio-only streams), frame rate, video codec, average audio bitrate
      in kbps, and whether it carries a video and an audio track. */
  datatype Stream = Stream(resolution: Option<string>, fps: nat, videoCodec: string, abr: nat,
                           hasVideo: bool, hasAudio: bool)

  /** A resolution label: a digit string followed by 'p'. */
  predicate IsLabel(res: string) {
    2 <= |res| && res[|res| - 1] == 'p' && Decimal.AllDigits(res[..|res| - 1])
  }

  /** `int(x[:-1])` for a resolution label. */
  function LabelValue(res: string): (v: nat)
    requires IsLabel(res)
    ensures v < Decimal.Pow10(|res| - 1)
    ensures forall n: nat :: res == Decimal.Show(n) + "p" ==> v == n
  {
    var digits := res[..|res| - 1];
    assert forall n: nat :: res == Decimal.Show(n) + "p" ==> digits == Decimal.Show(n) by {
      forall n: nat | res == Decimal.Show(n) + "p"
        ensures digits == Decimal.Show(n)
      {
        assert digits == (Decimal.Show(n) + "p")[..|Decimal.Show(n)|];
      }
    }
    assert forall n: nat :: digits == Decimal.Show(n) ==> Decimal.Value(digits) == n by {
      forall n: nat | digits == Decimal.Show(n)
        ensures Decimal.Value(digits) == n
      {
        Decimal.ValueShow(n);
      }
    }
    Decimal.Value(digits)
  }

  /** The labels' values fall strictly from front to back. */
  predicate Descending(labels: seq<string>)
    requires forall l :: l in labels ==> IsLabel(l)
  {
    forall i, j :: 0 <= i < j < |labels| ==> LabelValue(labels[i]) > LabelValue(labels[j])
  }

  /** Each entry of `RESOLUTIONS` is a label whose value is its height. */
  lemma ResolutionValues()
    ensures forall l :: l in Resolutions ==> IsLabel(l)
    ensures forall i :: 0 <= i < |Resolutions| ==> LabelValue(Resolutions[i]) == Heights[i]
  {
    FourDigitLabel('2', '1', '6', '0');
    FourDigitLabel('1', '4', '4', '0');
    FourDigitLabel('1', '0', '8', '0');
    ThreeDigitLabel('7', '2', '0');
    ThreeDigitLabel('4', '8', '0');
    ThreeDigitLabel('3', '6', '0');
    ThreeDigitLabel('2', '4', '0');
    ThreeDigitLabel('1', '4', '4');
  }

  /** Three digits followed by 'p' make a label worth what they spell. */
  lemma ThreeDigitLabel(a: char, b: char, c: char)
    requires Decimal.IsDigit(a) && Decimal.IsDigit(b) && Decimal.IsDigit(c)
    ensures IsLabel([a, b, c, 'p'])
    ensures LabelValue([a, b, c, 'p'])
         == 100 * Decimal.DigitValue(a) + 10 * Decimal.DigitValue(b) + Decimal.DigitValue(c)
  {
    assert [a, b, c, 'p'][..3] == [a, b, c];
    assert [a, b, c][..2] == [a, b];
    assert [a, b][..1] == [a];
    assert [a][..0] == [];
    assert Decimal.Value([a]) == Decimal.DigitValue(a);
    assert Decimal.Value([a, b]) == Decimal.Value([a]) * 10 + Decimal.DigitValue(b);
    assert Decimal.Value([a, b, c]) == Decimal.Value([a, b]) * 10 + Decimal.DigitValue(c);
  }

  /** Four digits followed by 'p' make a label worth what they spell. */
  lemma FourDigitLabel(a: char, b: char, c: char, d: char)
    requires Decimal.IsDigit(a) && Decimal.IsDigit(b) && Decimal.IsDigit(c) && Decimal.IsDigit(d)
    ensures IsLabel([a, b, c, d, 'p'])
    ensures LabelValue([a, b, c, d, 'p'])
         == 1000 * Decimal.DigitValue(a) + 100 * Decimal.DigitValue(b) +
            10 * Decimal.DigitValue(c) + Decimal.DigitValue(d)
  {
    assert [a, b, c, d, 'p'][..4] == [a, b, c, d];
    assert [a, b, c, d][..3] == [a, b, c];
    assert [a, b, c][..2] == [a, b];
    assert [a, b][..1] == [a];
    assert [a][..0] == [];
    assert Decimal.Value([a]) == Decimal.DigitValue(a);
    assert Decimal.Value([a, b]) == Decimal.Value([a]) * 10 + Decimal.DigitValue(b);
    assert Decimal.Value([a, b, c]) == Decimal.Value([a, b]) * 10 + Decimal.DigitValue(c);
    assert Decimal.Value([a, b, c, d]) == Decimal.Value([a, b, c]) * 10 + Decimal.DigitValue(d);
  }

  /** `RESOLUTIONS` is listed from the highest resolution down. */
  lemma ResolutionsDescending()
    ensures forall l :: l in Resolutions ==> IsLabel(l)
    ensures Descending(Resolutions)
  {
    ResolutionValues();
  }

  /** The members of `xs` that `keep` accepts, in their order: Python's
      `filter` and pytube's `StreamQuery.filter`. */
  function Filter<T(!new)>(xs: seq<T>, keep: T -> bool): (r: seq<T>)
    ensures forall s :: s in r <==> s in xs && keep(s)
    ensures |r| <= |xs|
  {
    if xs == [] then []
    else if keep(xs[0]) then [xs[0]] + Filter(xs[1..], keep)
    else Filter(xs[1..], keep)
  }

  /** Filtering distributes over concatenation, so it keeps the relative
      order of the streams it retains. */
  lemma {:induction false} FilterAppend<T(!new)>(xs: seq<T>, ys: seq<T>, keep: T -> bool)
    ensures Filter(xs + ys, keep) == Filter(xs, keep) + Filter(ys, keep)
  {
    if xs != [] {
      assert (xs + ys)[0] == xs[0];
      assert (xs + ys)[1..] == xs[1..] + ys;
      FilterAppend(xs[1..], ys, keep);
      if keep(xs[0]) {
        assert Filter(xs + ys, keep) == [xs[0]] + Filter(xs[1..] + ys, keep);
        assert [xs[0]] + (Filter(xs[1..], keep) + Filter(ys, keep))
            == ([xs[0]] + Filter(xs[1..], keep)) + Filter(ys, keep);
      }
    } else {
      assert xs + ys == ys;
    }
  }

  /** The labels of `labels` whose value is at most `quality`, in order:
      the `filter(lambda x: int(x[:-1]) <= quality, RESOLUTIONS)` step. */
  function AtMost(labels: seq<string>, quality: int): (r: seq<string>)
    requires forall l :: l in labels ==> IsLabel(l)
    ensures forall l :: l in r <==> l in labels && LabelValue(l) <= quality
  {
    Filter(labels, (l: string) => IsLabel(l) && LabelValue(l) <= quality)
  }

  /** Filtering by a ceiling keeps labels in falling order. */
  lemma {:induction false} AtMostDescending(labels: seq<string>, quality: int)
    requires forall l :: l in labels ==> IsLabel(l)
    requires Descending(labels)
    ensures Descending(AtMost(labels, quality))
  {
    if labels != [] {
      var rest := labels[1..];
      DescendingTail(labels);
      AtMostDescending(rest, quality);
      if LabelValue(labels[0]) <= quality {
        var tail := AtMost(rest, quality);
        forall l | l in tail
          ensures LabelValue(l) < LabelValue(labels[0])
        {
          var k :| 0 <= k < |rest| && rest[k] == l;
          assert labels[k + 1] == l;
        }
        DescendingCons(labels[0], tail);
      }
    }
  }

  /** Dropping the head of a falling list leaves a falling list. */
  lemma DescendingTail(labels: seq<string>)
    requires labels != [] && forall l :: l in labels ==> IsLabel(l)
    requires Descending(labels)
    ensures Descending(labels[1..])
  {
    var rest := labels[1..];
    forall i, j | 0 <= i < j < |rest|
      ensures LabelValue(rest[i]) > LabelValue(rest[j])
    {
      assert rest[i] == labels[i + 1] && rest[j] == labels[j + 1];
    }
  }

  /** A label above every label of a falling list can head it. */
  lemma DescendingCons(head: string, tail: seq<string>)
    requires IsLabel(head) && forall l :: l in tail ==> IsLabel(l)
    requires Descending(tail)
    requires forall l :: l in tail ==> LabelValue(l) < LabelValue(head)
    ensures Descending([head] + tail)
  {
    var r := [head] + tail;
    forall i, j | 0 <= i < j < |r|
      ensures LabelValue(r[i]) > LabelValue(r[j])
    {
      assert r[j] == tail[j - 1];
      if 0 < i {
        assert r[i] == tail[i - 1];
      }
    }
  }

  /** A ceiling at or above every label keeps them all. */
  lemma {:induction false} AtMostAll(labels: seq<string>, quality: int)
    requires forall l :: l in labels ==> IsLabel(l) && LabelValue(l) <= quality
    ensures AtMost(labels, quality) == labels
  {
    if labels != [] {
      AtMostAll(labels[1..], quality);
    }
  }

  /** A ceiling below every label keeps none. */
  lemma {:induction false} AtMostNone(labels: seq<string>, quality: int)
    requires forall l :: l in labels ==> IsLabel(l) && quality < LabelValue(l)
    ensures AtMost(labels, quality) == []
  {
    if labels != [] {
      AtMostNone(labels[1..], quality);
    }
  }

  /** The resolutions tried for a quality ceiling, highest first. */
  function Candidates(quality: int): (c: seq<string>)
    ensures forall l :: l in c ==> IsLabel(l)
    ensures Descending(c)
  {
    ResolutionsDescending();
    AtMostDescending(Resolutions, quality);
    AtMost(Resolutions, quality)
  }

  /** The candidates are exactly the labels of `RESOLUTIONS` not above the
      ceiling (`Candidates` keeps them highest first); a ceiling below 144 leaves none and one
      of 2160 or more keeps all eight. */
  lemma CandidatesCeiling(quality: int)
    ensures forall l :: l in Candidates(quality) <==> l in Resolutions && LabelValue(l) <= quality
    ensures quality < 144 ==> Candidates(quality) == []
    ensures 2160 <= quality ==> Candidates(quality) == Resolutions
  {
    ResolutionValues();
    if quality < 144 {
      AtMostNone(Resolutions, quality);
    }
    if 2160 <= quality {
      AtMostAll(Resolutions, quality);
    }
  }

  /** `streams.filter(res=res)`. */
  function AtResolution(streams: seq<Stream>, res: string): (group: seq<Stream>)
    ensures forall s :: s in group <==> s in streams && s.resolution == Some(res)
  {
    Filter(streams, (s: Stream) => s.resolution == Some(res))
  }

  /** `streams.filter(video_codec="vp9")`. */
  function WithVp9(streams: seq<Stream>): (vp9: seq<Stream>)
    ensures forall s :: s in vp9 <==> s in streams && s.videoCodec == Vp9
  {
    Filter(streams, (s: Stream) => s.videoCodec == Vp9)
  }

  /** `streams.filter(only_audio=True)`: an audio track and no video track. */
  function AudioOnly(streams: seq<Stream>): (audio: seq<Stream>)
    ensures forall s :: s in audio <==> s in streams && s.hasAudio && !s.hasVideo
  {
    Filter(streams, (s: Stream) => s.hasAudio && !s.hasVideo)
  }

  /** The position `order_by(key).last()` picks: pytube sorts stably by the
      key, ascending, so the last entry carries the largest key and, among
      equal keys, the one enumerated last. */
  function LastMax(keys: seq<int>): (j: nat)
    requires keys != []
    ensures j < |keys|
    ensures forall i :: 0 <= i < |keys| ==> keys[i] <= keys[j]
    ensures forall i :: j < i < |keys| ==> keys[i] < keys[j]
  {
    if |keys| == 1 then 0
    else
      var j := LastMax(keys[..|keys| - 1]);
      if keys[j] <= keys[|keys| - 1] then |keys| - 1 else j
  }

  /** Only one position holds the largest key with nothing as large after it. */
  lemma LastMaxUnique(keys: seq<int>, k: nat)
    requires k < |keys|
    requires forall i :: 0 <= i < |keys| ==> keys[i] <= keys[k]
    requires forall i :: k < i < |keys| ==> keys[i] < keys[k]
    ensures LastMax(keys) == k
  {
  }

  /** The frame rates of `xs`, in order. */
  function FrameRates(xs: seq<Stream>): (keys: seq<int>)
    ensures |keys| == |xs| && forall i :: 0 <= i < |xs| ==> keys[i] == xs[i].fps
  {
    seq(|xs|, i requires 0 <= i < |xs| => xs[i].fps)
  }

  /** The audio bitrates of `xs`, in order. */
  function Bitrates(xs: seq<Stream>): (keys: seq<int>)
    ensures |keys| == |xs| && forall i :: 0 <= i < |xs| ==> keys[i] == xs[i].abr
  {
    seq(|xs|, i requires 0 <= i < |xs| => xs[i].abr)
  }

  /** `WithVp9` is empty exactly when no stream uses vp9. */
  lemma NoVp9(group: seq<Stream>)
    ensures WithVp9(group) == [] <==> forall s :: s in group ==> s.videoCodec != Vp9
  {
    if WithVp9(group) != [] {
      assert WithVp9(group)[0] in WithVp9(group);
    }
  }

  /** The streams of one resolution narrowed to the vp9 ones when there are
      any, otherwise all of them. */
  function Narrowed(group: seq<Stream>): (n: seq<Stream>)
    ensures group != [] ==> n != []
    ensures forall s :: s in n <==> s in group && (s.videoCodec == Vp9 || WithVp9(group) == [])
  {
    if WithVp9(group) != [] then WithVp9(group) else group
  }

  /** The stream kept from one resolution: among the narrowed streams, the
      highest frame rate, ties going to the one enumerated last. */
  function BestOf(group: seq<Stream>): (v: Stream)
    requires group != []
    ensures v in group
    ensures (exists s :: s in group && s.videoCodec == Vp9) ==> v.videoCodec == Vp9
    ensures forall s :: s in Narrowed(group) ==> s.fps <= v.fps
    ensures exists j :: 0 <= j < |Narrowed(group)| && Narrowed(group)[j] == v &&
              forall i :: j < i < |Narrowed(group)| ==> Narrowed(group)[i].fps < v.fps
  {
    var narrowed := Narrowed(group);
    var j := LastMax(FrameRates(narrowed));
    assert forall s :: s in narrowed ==> s.fps <= narrowed[j].fps by {
      forall s | s in narrowed ensures s.fps <= narrowed[j].fps {
        var i :| 0 <= i < |narrowed| && narrowed[i] == s;
        assert FrameRates(narrowed)[i] <= FrameRates(narrowed)[j];
      }
    }
    narrowed[j]
  }

  /** The position of the first candidate resolution that has streams, or
      `|candidates|` when none has. */
  function FirstAvailable(streams: seq<Stream>, candidates: seq<string>): (k: nat)
    ensures k <= |candidates|
    ensures forall j :: 0 <= j < k ==> AtResolution(streams, candidates[j]) == []
    ensures k < |candidates| ==> AtResolution(streams, candidates[k]) != []
  {
    if candidates == [] then 0
    else if AtResolution(streams, candidates[0]) != [] then 0
    else 1 + FirstAvailable(streams, candidates[1..])
  }

  /** The video stream the scan settles on: the best stream of the first
      candidate resolution that has streams, or `fallback` (pytube's
      `get_highest_resolution()`) when the candidates run out. */
  function PickVideo(streams: seq<Stream>, candidates: seq<string>, fallback: Stream): (video: Stream)
    ensures video == fallback ||
              (video in streams && video.resolution.Some? && video.resolution.value in candidates)
  {
    var k := FirstAvailable(streams, candidates);
    if k == |candidates| then fallback else BestOf(AtResolution(streams, candidates[k]))
  }

  /** In a falling list of labels, no label above the first one that has
      streams has any. */
  lemma HigherUnavailable(streams: seq<Stream>, candidates: seq<string>, r: string)
    requires forall l :: l in candidates ==> IsLabel(l)
    requires Descending(candidates)
    requires FirstAvailable(streams, candidates) < |candidates|
    requires r in candidates
    requires LabelValue(candidates[FirstAvailable(streams, candidates)]) < LabelValue(r)
    ensures AtResolution(streams, r) == []
  {
    var i :| 0 <= i < |candidates| && candidates[i] == r;
  }

  /** The first label that has streams is the resolution of the stream
      picked from them. */
  lemma PickedResolution(streams: seq<Stream>, candidates: seq<string>, fallback: Stream)
    requires FirstAvailable(streams, candidates) < |candidates|
    ensures PickVideo(streams, candidates, fallback).resolution
         == Some(candidates[FirstAvailable(streams, candidates)])
  {
    var group := AtResolution(streams, candidates[FirstAvailable(streams, candidates)]);
    assert BestOf(group) in group;
  }

  /** What the scan promises for a quality ceiling: with no stream at any
      candidate resolution it falls back; otherwise it picks the best stream
      of the highest candidate resolution that has streams. With
      `CandidatesCeiling`, the candidates are the resolutions within the
      ceiling. */
  lemma PickVideoCeiling(streams: seq<Stream>, quality: int, fallback: Stream, video: Stream)
    requires video == PickVideo(streams, Candidates(quality), fallback)
    ensures (forall r :: r in Candidates(quality) ==> AtResolution(streams, r) == []) ==> video == fallback
    ensures (exists r :: r in Candidates(quality) && AtResolution(streams, r) != []) ==>
              video in streams && video.resolution.Some? && video.resolution.value in Candidates(quality) &&
              AtResolution(streams, video.resolution.value) != [] &&
              video == BestOf(AtResolution(streams, video.resolution.value)) &&
              forall r :: r in Candidates(quality) && LabelValue(video.resolution.value) < LabelValue(r) ==>
                AtResolution(streams, r) == []
  {
    var candidates := Candidates(quality);
    var k := FirstAvailable(streams, candidates);
    if k < |candidates| {
      assert candidates[k] in candidates;
      PickedResolution(streams, candidates, fallback);
      forall r | r in candidates && LabelValue(candidates[k]) < LabelValue(r)
        ensures AtResolution(streams, r) == []
      {
        HigherUnavailable(streams, candidates, r);
      }
    } else {
      forall r | r in candidates
        ensures AtResolution(streams, r) == []
      {
        var i :| 0 <= i < |candidates| && candidates[i] == r;
      }
    }
  }

  /** The scan over the candidate resolutions in `download_video`, one
      `next(iter_res)` per turn, with the stable-sort choice by frame rate. */
  method SelectVideo(streams: seq<Stream>, quality: int, fallback: Stream) returns (video: Stream)
    ensures video == PickVideo(streams, Candidates(quality), fallback)
  {
    var candidates := Candidates(quality);
    ghost var first := FirstAvailable(streams, candidates);
    var i := 0;
    while true
      invariant i <= first
      decreases |candidates| - i
    {
      if i == |candidates| {
        video := fallback;
        break;
      }
      var res := candidates[i];
      i := i + 1;
      var group := AtResolution(streams, res);
      if group != [] {
        assert first == i - 1;
        var narrowed := group;
        if WithVp9(group) != [] {
          narrowed := WithVp9(group);
        }
        assert narrowed == Narrowed(group);
        video := narrowed[LastMax(FrameRates(narrowed))];
        break;
      }
      assert first != i - 1;
    }
  }

  /** `streams.filter(only_audio=True).order_by("abr").last()`: nothing when
      no stream is audio-only, otherwise the audio-only stream with the highest
      bitrate, ties going to the one enumerated last. */
  function SelectAudio(streams: seq<Stream>): (a: Option<Stream>)
    ensures a.None? <==> forall s :: s in streams ==> !(s.hasAudio && !s.hasVideo)
    ensures a.Some? ==> a.value in streams && a.value.hasAudio && !a.value.hasVideo
    ensures a.Some? ==> forall s :: s in streams && s.hasAudio && !s.hasVideo ==> s.abr <= a.value.abr
    ensures a.Some? ==>
              exists j :: 0 <= j < |AudioOnly(streams)| && AudioOnly(streams)[j] == a.value &&
                forall i :: j < i < |AudioOnly(streams)| ==> AudioOnly(streams)[i].abr < a.value.abr
  {
    var audio := AudioOnly(streams);
    if audio == [] then None
    else
      var j := LastMax(Bitrates(audio));
      assert audio[0] in audio;
      assert forall s :: s in audio ==> s.abr <= audio[j].abr by {
        forall s | s in audio ensures s.abr <= audio[j].abr {
          var i :| 0 <= i < |audio| && audio[i] == s;
          assert Bitrates(audio)[i] <= Bitrates(audio)[j];
        }
      }
      Some(audio[j])
  }
}

/**
 * Choice of the audio stream among the formats the resolver reports:
 * keep the formats with an audio codec and a URL, sort them by file size,
 * largest first, with a missing size counted as 0, and take the first.
 * `Array.prototype.sort` is stable, so among formats of equal size the one
 * that came first in the resolver's list wins.
 */
module AudioFormat {
  import opened Wrappers

  /**
   * One entry of the resolver's `formats` list. A missing `acodec` or `url`
   * is represented by the empty string, which JavaScript treats the same
   * way in the tests below (`undefined !== "none"`, `!undefined`).
   */
  datatype Format = Format(acodec: string, url: string, filesize: Option<nat>)

  /** `f.acodec !== "none" && f.url` */
  predicate HasAudio(f: Format) {
    f.acodec != "none" && f.url != ""
  }

  /** `f.filesize || 0` */
  function SizeOf(f: Format): nat {
    f.filesize.GetOr(0)
  }

  /** `formats.filter(HasAudio)`: the qualifying formats, in their original order. */
  function AudioCandidates(formats: seq<Format>): (r: seq<Format>)
    ensures |r| <= |formats|
    ensures forall i :: 0 <= i < |r| ==> HasAudio(r[i]) && r[i] in formats
    ensures forall j :: 0 <= j < |formats| && HasAudio(formats[j]) ==> formats[j] in r
  {
    if formats == [] then []
    else (if HasAudio(formats[0]) then [formats[0]] else []) + AudioCandidates(formats[1..])
  }

  /** Sizes never increase along `s`. */
  predicate LargestFirst(s: seq<Format>) {
    forall i, j :: 0 <= i < j < |s| ==> SizeOf(s[i]) >= SizeOf(s[j])
  }

  /**
   * Puts `f` into the largest-first list `sorted` ahead of every format
   * that is not larger than it, so that `f` stays ahead of equal-sized
   * formats that followed it in the input.
   */
  function InsertBySize(f: Format, sorted: seq<Format>): (r: seq<Format>)
    requires LargestFirst(sorted)
    ensures multiset(r) == multiset(sorted) + multiset{f}
    ensures LargestFirst(r)
    ensures r[0] == (if sorted == [] || SizeOf(sorted[0]) <= SizeOf(f) then f else sorted[0])
  {
    if sorted == [] || SizeOf(sorted[0]) <= SizeOf(f) then [f] + sorted
    else
      var rest := InsertBySize(f, sorted[1..]);
      assert sorted == [sorted[0]] + sorted[1..];
      PrependLargest(sorted[0], rest);
      [sorted[0]] + rest
  }

  /** Prepending a format at least as large as the head keeps a list largest-first. */
  lemma PrependLargest(g: Format, s: seq<Format>)
    requires LargestFirst(s)
    requires s != [] ==> SizeOf(s[0]) <= SizeOf(g)
    ensures LargestFirst([g] + s)
  {
    var t := [g] + s;
    forall i, j | 0 <= i < j < |t| ensures SizeOf(t[i]) >= SizeOf(t[j]) {
      if i == 0 {
        assert t[j] == s[j - 1];
        assert SizeOf(s[0]) >= SizeOf(s[j - 1]);
      } else {
        assert t[i] == s[i - 1] && t[j] == s[j - 1];
      }
    }
  }

  /** `s.sort((a, b) => SizeOf(b) - SizeOf(a))`, a stable sort, written as an insertion sort. */
  function SortBySize(s: seq<Format>): (r: seq<Format>)
    ensures multiset(r) == multiset(s)
    ensures LargestFirst(r)
  {
    if s == [] then []
    else
      assert s == [s[0]] + s[1..];
      InsertBySize(s[0], SortBySize(s[1..]))
  }

  /** `i` is the position of the first format of maximal size in `s`. */
  predicate IsFirstLargest(s: seq<Format>, i: int) {
    && 0 <= i < |s|
    && (forall j :: 0 <= j < |s| ==> SizeOf(s[j]) <= SizeOf(s[i]))
    && (forall j :: 0 <= j < i ==> SizeOf(s[j]) < SizeOf(s[i]))
  }

  /** Reference definition of the winner: a left-to-right scan keeping the first maximum. */
  function FirstLargest(s: seq<Format>): (i: nat)
    requires s != []
    ensures IsFirstLargest(s, i)
  {
    if |s| == 1 then 0
    else
      var k := FirstLargest(s[1..]);
      if SizeOf(s[0]) >= SizeOf(s[1 + k]) then 0 else 1 + k
  }

  /** The head of the stable largest-first sort is the first format of maximal size. */
  lemma {:induction false} SortHeadIsFirstLargest(s: seq<Format>)
    requires s != []
    ensures SortBySize(s)[0] == s[FirstLargest(s)]
  {
    if |s| > 1 {
      SortHeadIsFirstLargest(s[1..]);
    }
  }

  /** Every qualifying format ahead of position `k` of the input is smaller than `formats[k]`. */
  predicate AheadOfEqualSizes(formats: seq<Format>, k: int) {
    && 0 <= k < |formats|
    && forall j :: 0 <= j < k && HasAudio(formats[j]) ==> SizeOf(formats[j]) < SizeOf(formats[k])
  }

  /**
   * Putting one format in front of the input keeps `x` ahead of equal sizes
   * when that format is smaller than `x` or does not qualify.
   */
  lemma ShiftAhead(formats: seq<Format>, x: Format)
    requires formats != [] && exists k :: AheadOfEqualSizes(formats[1..], k) && formats[1..][k] == x
    requires HasAudio(formats[0]) ==> SizeOf(formats[0]) < SizeOf(x)
    ensures exists k :: AheadOfEqualSizes(formats, k) && formats[k] == x
  {
    var k :| AheadOfEqualSizes(formats[1..], k) && formats[1..][k] == x;
    forall j | 0 <= j < k + 1 && HasAudio(formats[j])
      ensures SizeOf(formats[j]) < SizeOf(formats[k + 1])
    {
      if j > 0 { assert formats[j] == formats[1..][j - 1]; }
    }
    assert AheadOfEqualSizes(formats, k + 1);
  }

  /**
   * The filter keeps the input's order: when every candidate ahead of
   * position `i` is smaller than it, so is every qualifying format ahead of
   * its position in the input.
   */
  lemma {:induction false} EarlierCandidatesAreSmaller(formats: seq<Format>, i: nat)
    requires i < |AudioCandidates(formats)|
    requires forall m :: 0 <= m < i ==> SizeOf(AudioCandidates(formats)[m]) < SizeOf(AudioCandidates(formats)[i])
    ensures exists k :: AheadOfEqualSizes(formats, k) && formats[k] == AudioCandidates(formats)[i]
    decreases |formats|, 1
  {
    if HasAudio(formats[0]) {
      KeptHeadCase(formats, i);
    } else {
      assert AudioCandidates(formats) == AudioCandidates(formats[1..]);
      EarlierCandidatesAreSmaller(formats[1..], i);
      ShiftAhead(formats, AudioCandidates(formats)[i]);
    }
  }

  /** `EarlierCandidatesAreSmaller` when the first format qualifies and so heads the candidates. */
  lemma {:induction false} KeptHeadCase(formats: seq<Format>, i: nat)
    requires formats != [] && HasAudio(formats[0])
    requires i < |AudioCandidates(formats)|
    requires forall m :: 0 <= m < i ==> SizeOf(AudioCandidates(formats)[m]) < SizeOf(AudioCandidates(formats)[i])
    ensures exists k :: AheadOfEqualSizes(formats, k) && formats[k] == AudioCandidates(formats)[i]
    decreases |formats|, 0
  {
    var c := AudioCandidates(formats);
    var c' := AudioCandidates(formats[1..]);
    assert c == [formats[0]] + c';
    if i == 0 {
      assert AheadOfEqualSizes(formats, 0);
    } else {
      StrictlySmallerInTail(formats[0], c', i);
      EarlierCandidatesAreSmaller(formats[1..], i - 1);
      ShiftAhead(formats, c'[i - 1]);
    }
  }

  /** Dropping the head of a list keeps "every element ahead of position `i` is smaller". */
  lemma StrictlySmallerInTail(x: Format, tail: seq<Format>, i: nat)
    requires 0 < i <= |tail|
    requires forall m :: 0 <= m < i ==> SizeOf(([x] + tail)[m]) < SizeOf(([x] + tail)[i])
    ensures SizeOf(x) < SizeOf(tail[i - 1])
    ensures forall m :: 0 <= m < i - 1 ==> SizeOf(tail[m]) < SizeOf(tail[i - 1])
  {
    var c := [x] + tail;
    assert c[0] == x && c[i] == tail[i - 1];
    forall m | 0 <= m < i - 1 ensures SizeOf(tail[m]) < SizeOf(tail[i - 1]) {
      assert c[m + 1] == tail[m];
    }
  }

  /** `formats.filter(HasAudio).sort(bySizeDescending)[0]`, `None` standing for `undefined`. */
  function SelectAudioFormat(formats: seq<Format>): (r: Option<Format>)
    ensures r.Some? ==> r.value in formats && HasAudio(r.value)
  {
    var sorted := SortBySize(AudioCandidates(formats));
    if sorted == [] then None
    else
      assert sorted[0] in multiset(AudioCandidates(formats));
      Some(sorted[0])
  }

  /**
   * No format is selected exactly when none has an audio codec and a URL.
   * Otherwise the selected format is one of the resolver's, has an audio
   * codec and a URL, is at least as large as every qualifying format, and
   * is the first qualifying format of that size.
   */
  lemma SelectAudioFormatIsFirstLargest(formats: seq<Format>)
    ensures SelectAudioFormat(formats).None? <==> forall f :: f in formats ==> !HasAudio(f)
    ensures SelectAudioFormat(formats).Some? ==>
      var f := SelectAudioFormat(formats).value;
      var candidates := AudioCandidates(formats);
      && f in formats && HasAudio(f) && f.url != "" && f.acodec != "none"
      && (forall g :: g in formats && HasAudio(g) ==> SizeOf(g) <= SizeOf(f))
      && f == candidates[FirstLargest(candidates)]
  {
    var candidates := AudioCandidates(formats);
    var sorted := SortBySize(candidates);
    assert |sorted| == |candidates| by {
      assert |multiset(sorted)| == |multiset(candidates)|;
    }
    if candidates != [] {
      SortHeadIsFirstLargest(candidates);
      var k := FirstLargest(candidates);
      assert candidates[k] in candidates;
      forall g | g in formats && HasAudio(g) ensures SizeOf(g) <= SizeOf(candidates[k]) {
        var j :| 0 <= j < |candidates| && candidates[j] == g;
      }
    } else {
      forall f | f in formats ensures !HasAudio(f) {
        assert f !in candidates;
      }
    }
  }

  /**
   * Ties go to the first: the selected format sits at a position of the
   * resolver's own list ahead of which every qualifying format is smaller.
   */
  lemma SelectedIsFirstOfItsSize(formats: seq<Format>)
    requires SelectAudioFormat(formats).Some?
    ensures exists k :: AheadOfEqualSizes(formats, k) && formats[k] == SelectAudioFormat(formats).value
  {
    var candidates := AudioCandidates(formats);
    SelectAudioFormatIsFirstLargest(formats);
    EarlierCandidatesAreSmaller(formats, FirstLargest(candidates));
  }
}

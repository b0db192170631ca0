/**
 Choosing a file of a torrent for a movie or an episode: every file gets a score, the highest
 score wins, the first file of those with equal scores.

 What the patterns find in a file name (the extension, whether it is a sample or a bonus, the
 episode tag and a range of episodes) is part of the input. Sizes are whole numbers of bytes.
 */
module FileSelection {
  import opened Prelude
  import opened StableSort

  datatype Tag = Untagged | Tag(season: int, episode: int, multi: bool, absolute: bool)

  datatype Range = Range(season: int, first: int, last: int)

  datatype File = File(name: string, ext: string, sample: bool, size: int, tag: Tag, range: Option<Range>)

  datatype Request = Request(fileIdx: Option<int>, season: Option<int>, episode: Option<int>)

  /** Why a file has its score. */
  datatype Reason =
    | NonVideoExtension
    | VideoExtension(ext: string)
    | UnknownExtension
    | SampleOrBonus
    | Tiny
    | ExactEpisode
    | EpisodeInRange
    | AbsoluteEpisode
    | OtherEpisode
    | NoEpisodeTag
    | ExplicitFileIndex

  datatype Candidate = Candidate(index: nat, file: File, score: int, reasons: seq<Reason>)

  datatype Match = NoFiles | ExplicitIndex | ExplicitNotVideo | NoVideo | ExactMatch | MultiOrAnime | BestScoring | LowConfidence

  /** `index` is -1 when no file is chosen. */
  datatype Selection = Selection(index: int, reason: Match, candidates: seq<Candidate>)

  // ---------------------------------------------------------------- extensions

  const VIDEO: map<string, nat> := map[
    "mkv" := 50, "mp4" := 45, "webm" := 40, "m4v" := 35, "ts" := 30, "m2ts" := 25,
    "avi" := 20, "mov" := 15, "flv" := 10, "wmv" := 10, "mpg" := 5, "mpeg" := 5]

  const NON_VIDEO: set<string> := {
    "nfo", "txt", "jpg", "jpeg", "png", "gif", "srt", "sub", "idx", "ass", "vtt", "cue", "sfv", "url", "exe"}

  predicate IsVideo(f: File) {
    f.ext in VIDEO && f.ext !in NON_VIDEO
  }

  // ---------------------------------------------------------------- the score

  predicate ForEpisode(r: Request) {
    r.season.Some? && r.episode.Some?
  }

  predicate TaggedExactly(f: File, season: int, episode: int) {
    f.tag.Tag? && f.tag.season == season && f.tag.episode == episode
  }

  predicate RangeCovers(f: File, season: int, episode: int) {
    f.tag.Tag? && f.tag.multi && f.range.Some? && f.range.value.season == season
    && f.range.value.first <= episode <= f.range.value.last
  }

  predicate CountedAbsolutely(f: File, season: int, episode: int) {
    f.tag.Tag? && f.tag.absolute && (season == 1 || season == 0) && f.tag.episode == episode
  }

  function ExtensionReason(f: File): Reason {
    if f.ext in NON_VIDEO then NonVideoExtension
    else if f.ext in VIDEO then VideoExtension(f.ext)
    else UnknownExtension
  }

  predicate IsTiny(f: File) {
    0 < f.size < 30 * 1024 * 1024
  }

  function EpisodeReason(f: File, season: int, episode: int): Reason {
    if f.tag.Untagged? then NoEpisodeTag
    else if TaggedExactly(f, season, episode) then ExactEpisode
    else if RangeCovers(f, season, episode) then EpisodeInRange
    else if CountedAbsolutely(f, season, episode) then AbsoluteEpisode
    else OtherEpisode
  }

  function Reasons(f: File, r: Request): seq<Reason> {
    [ExtensionReason(f)]
    + (if f.sample then [SampleOrBonus] else [])
    + (if IsTiny(f) then [Tiny] else [])
    + (if ForEpisode(r) then [EpisodeReason(f, r.season.value, r.episode.value)] else [])
  }

  function Weight(reason: Reason): int {
    match reason
    case NonVideoExtension => -10000
    case VideoExtension(ext) => if ext in VIDEO then VIDEO[ext] else 0
    case UnknownExtension => -500
    case SampleOrBonus => -5000
    case Tiny => -300
    case ExactEpisode => 2000
    case EpisodeInRange => 1800
    case AbsoluteEpisode => 1500
    case OtherEpisode => -4000
    case NoEpisodeTag => -100
    case ExplicitFileIndex => 10000
  }

  function Total(reasons: seq<Reason>): int {
    if reasons == [] then 0 else Total(reasons[..|reasons| - 1]) + Weight(reasons[|reasons| - 1])
  }

  function MaxSize(files: seq<File>): int {
    if files == [] then 1 else Max(MaxSize(files[..|files| - 1]), files[|files| - 1].size)
  }

  /** `size / largest * 50`, rounded to the nearest whole number, halves upwards. */
  function SizeScore(size: int, largest: int): int
    requires largest >= 1
  {
    (100 * size + largest) / (2 * largest)
  }

  function Score(f: File, r: Request, largest: int): int
    requires largest >= 1
  {
    SizeScore(f.size, largest) + Total(Reasons(f, r))
  }

  function Candidates(files: seq<File>, r: Request, largest: int): seq<Candidate>
    requires largest >= 1
  {
    seq(|files|, i requires 0 <= i < |files| => Candidate(i, files[i], Score(files[i], r, largest), Reasons(files[i], r)))
  }

  function ByScore(): (Candidate, Candidate) -> bool {
    (a: Candidate, b: Candidate) => a.score >= b.score
  }

  function Ranked(files: seq<File>, r: Request): seq<Candidate>
    requires MaxSize(files) >= 1
  {
    Sort(ByScore(), Candidates(files, r, MaxSize(files)))
  }

  function Verdict(score: int): Match {
    if score > 1500 then ExactMatch
    else if score > 1000 then MultiOrAnime
    else if score > 0 then BestScoring
    else LowConfidence
  }

  predicate ValidIndex(files: seq<File>, r: Request) {
    r.fileIdx.Some? && 0 <= r.fileIdx.value < |files|
  }

  lemma {:induction false} MaxSizeBounds(files: seq<File>)
    ensures MaxSize(files) >= 1
    ensures forall f <- files :: f.size <= MaxSize(files)
  {
    if files != [] {
      MaxSizeBounds(files[..|files| - 1]);
      assert files == files[..|files| - 1] + [files[|files| - 1]];
    }
  }

  function Explicit(f: File, i: nat): Selection {
    Selection(i, ExplicitIndex, [Candidate(i, f, 10000, [ExplicitFileIndex])])
  }

  function Select(files: seq<File>, r: Request): Selection {
    if files == [] then Selection(-1, NoFiles, [])
    else if ValidIndex(files, r) then
      if IsVideo(files[r.fileIdx.value]) then Explicit(files[r.fileIdx.value], r.fileIdx.value)
      else Selection(-1, ExplicitNotVideo, [])
    else
      MaxSizeBounds(files);
      var ranked := Ranked(files, r);
      if ranked == [] || !IsVideo(ranked[0].file) then Selection(-1, NoVideo, [])
      else Selection(ranked[0].index, Verdict(ranked[0].score), ranked[..Min(5, |ranked|)])
  }

  // ---------------------------------------------------------------- the winner

  lemma ScoreIsPreorder()
    ensures TotalPreorder(ByScore())
  {
  }

  /** The first of the ranked candidates is a file with the highest score, and the first file of
      those that share it. */
  lemma WinnerIsFirstBest(files: seq<File>, r: Request)
    requires files != []
    ensures MaxSize(files) >= 1 && |Ranked(files, r)| == |files|
    ensures var w := Ranked(files, r)[0];
            && w.index < |files| && w.file == files[w.index] && w.score == Score(w.file, r, MaxSize(files))
            && forall i :: 0 <= i < |files| ==> Score(files[i], r, MaxSize(files)) <= w.score
    ensures var w := Ranked(files, r)[0];
            forall i :: 0 <= i < w.index ==> Score(files[i], r, MaxSize(files)) < w.score
  {
    MaxSizeBounds(files);
    var le := ByScore();
    var all := Candidates(files, r, MaxSize(files));
    var ranked := Ranked(files, r);
    ScoreIsPreorder();
    SortSorts(le, all);
    SortContents(le, all);
    var w := ranked[0];
    SortMembers(le, all, w);
    forall i | 0 <= i < |files| ensures Score(files[i], r, MaxSize(files)) <= w.score {
      SortMembers(le, all, all[i]);
      assert all[i] in ranked;
      assert le(w, all[i]) by {
        var k :| 0 <= k < |ranked| && ranked[k] == all[i];
        if k > 0 { assert le(ranked[0], ranked[k]); }
      }
    }
    forall i | 0 <= i < w.index ensures Score(files[i], r, MaxSize(files)) < w.score {
      FirstStaysFirst(all, i, w.index);
    }
  }

  /** A later candidate with no higher score cannot come out first. */
  lemma FirstStaysFirst(all: seq<Candidate>, i: nat, j: nat)
    requires i < j < |all| && forall k :: 0 <= k < |all| ==> all[k].index == k
    requires |Sort(ByScore(), all)| > 0 && Sort(ByScore(), all)[0] == all[j]
    ensures all[i].score < all[j].score
  {
    var ranked := Sort(ByScore(), all);
    if all[i].score >= all[j].score {
      assert ByScore()(all[i], all[j]);
      SortKeepsBefore(ByScore(), all, i, j);
      var p, q :| 0 <= p < q < |ranked| && ranked[p] == all[i] && ranked[q] == all[j];
      SortContents(ByScore(), all);
      TwiceInMultiset(ranked, 0, q);
      OnceInAll(all, j);
    }
  }

  lemma TwiceInMultiset(s: seq<Candidate>, p: nat, q: nat)
    requires p < q < |s| && s[p] == s[q]
    ensures multiset(s)[s[p]] >= 2
  {
    assert s == s[..q] + [s[q]] + s[q + 1..];
    assert s[..q][p] == s[p];
    assert multiset(s) == multiset(s[..q]) + multiset{s[q]} + multiset(s[q + 1..]);
  }

  lemma OnceInAll(all: seq<Candidate>, j: nat)
    requires j < |all| && forall k :: 0 <= k < |all| ==> all[k].index == k
    ensures multiset(all)[all[j]] == 1
  {
    var left, right := all[..j], all[j + 1..];
    assert all == left + [all[j]] + right;
    assert multiset(all) == multiset(left) + multiset{all[j]} + multiset(right);
    assert all[j] !in left && all[j] !in right;
  }

  // ---------------------------------------------------------------- gaps between the scores

  /** The score without the rounding of the size, case by case. */
  function Points(f: File, r: Request): int {
    Weight(ExtensionReason(f)) + (if f.sample then -5000 else 0) + (if IsTiny(f) then -300 else 0)
    + (if ForEpisode(r) then Weight(EpisodeReason(f, r.season.value, r.episode.value)) else 0)
  }

  lemma TotalAppend(a: seq<Reason>, x: Reason)
    ensures Total(a + [x]) == Total(a) + Weight(x)
  {
    assert (a + [x])[..|a|] == a;
  }

  lemma TotalIsPoints(f: File, r: Request)
    ensures Total(Reasons(f, r)) == Points(f, r)
  {
    var a := [ExtensionReason(f)];
    var b := a + if f.sample then [SampleOrBonus] else [];
    var c := b + if IsTiny(f) then [Tiny] else [];
    assert a == [] + a;
    TotalAppend([], ExtensionReason(f));
    if f.sample { TotalAppend(a, SampleOrBonus); } else { assert b == a; }
    if IsTiny(f) { TotalAppend(b, Tiny); } else { assert c == b; }
    if ForEpisode(r) {
      TotalAppend(c, EpisodeReason(f, r.season.value, r.episode.value));
    } else {
      assert Reasons(f, r) == c;
    }
  }

  /** A size between nothing and the largest is worth 0 to 50 points. */
  lemma SizeScoreBounds(size: int, largest: int)
    requires 0 <= size <= largest && largest >= 1
    ensures 0 <= SizeScore(size, largest) <= 50
  {
    var d := 2 * largest;
    var n := 100 * size + largest;
    assert n <= 50 * d + largest < 51 * d;
    DivBelow(n, d, 51);
  }

  lemma DivBelow(n: int, d: int, k: int)
    requires 0 <= n < k * d && d > 0
    ensures 0 <= n / d < k
  {
    var q := n / d;
    MulMonotone(k, q, d);
    assert n >= q * d;
  }

  lemma MulMonotone(a: int, b: int, d: int)
    requires d > 0
    ensures a <= b ==> a * d <= b * d
  {
    if a <= b {
      assert (b - a) * d >= 0;
    }
  }

  lemma ScoreBounds(files: seq<File>, r: Request, i: nat)
    requires i < |files| && forall f <- files :: f.size >= 0
    ensures MaxSize(files) >= 1
    ensures Points(files[i], r) <= Score(files[i], r, MaxSize(files)) <= Points(files[i], r) + 50
  {
    MaxSizeBounds(files);
    assert files[i] in files;
    SizeScoreBounds(files[i].size, MaxSize(files));
    TotalIsPoints(files[i], r);
  }

  predicate Proper(f: File) {
    IsVideo(f) && !f.sample
  }

  lemma ExtensionWeights(f: File)
    ensures IsVideo(f) ==> 5 <= Weight(ExtensionReason(f)) <= 50
    ensures !IsVideo(f) ==> Weight(ExtensionReason(f)) <= -500
  {
  }

  predicate Covers(f: File, r: Request) {
    ForEpisode(r)
    && (TaggedExactly(f, r.season.value, r.episode.value) || RangeCovers(f, r.season.value, r.episode.value))
  }

  lemma ExactPoints(f: File, r: Request)
    requires Proper(f) && ForEpisode(r) && TaggedExactly(f, r.season.value, r.episode.value)
    ensures Points(f, r) >= 1705
  {
    ExtensionWeights(f);
  }

  /** What it takes to come near an exactly tagged video. */
  lemma TopPoints(f: File, r: Request)
    requires Points(f, r) >= 1655
    ensures Proper(f) && Covers(f, r)
  {
    ExtensionWeights(f);
  }

  lemma HighPoints(f: File, r: Request)
    requires Points(f, r) >= 951
    ensures ForEpisode(r)
    ensures Covers(f, r) || CountedAbsolutely(f, r.season.value, r.episode.value)
  {
    ExtensionWeights(f);
  }

  lemma HighPointsSample(f: File, r: Request)
    requires Points(f, r) >= 951
    ensures !f.sample
  {
    ExtensionWeights(f);
  }

  lemma MoviePoints(f: File, r: Request)
    requires !ForEpisode(r)
    ensures Proper(f) ==> Points(f, r) >= -295
    ensures !Proper(f) ==> Points(f, r) <= -500
  {
    ExtensionWeights(f);
  }

  /** The chosen file of a selection that looks at scores, if it is a video. */
  lemma ChosenIsWinner(files: seq<File>, r: Request)
    requires files != [] && !ValidIndex(files, r)
    ensures MaxSize(files) >= 1 && |Ranked(files, r)| == |files|
    ensures var w := Ranked(files, r)[0];
            var s := Select(files, r);
            && (IsVideo(w.file) ==> s.index == w.index && s.reason == Verdict(w.score))
            && (!IsVideo(w.file) ==> s.index == -1 && s.reason == NoVideo)
  {
    WinnerIsFirstBest(files, r);
  }

  /** The winner has at least the points of any other file, up to the rounding of the sizes. */
  lemma WinnerPoints(files: seq<File>, r: Request, k: nat)
    requires k < |files| && forall f <- files :: f.size >= 0
    ensures MaxSize(files) >= 1 && |Ranked(files, r)| == |files|
    ensures var w := Ranked(files, r)[0];
            && w.index < |files| && w.file == files[w.index]
            && Points(files[k], r) <= w.score <= Points(w.file, r) + 50
  {
    WinnerIsFirstBest(files, r);
    ScoreBounds(files, r, k);
    ScoreBounds(files, r, Ranked(files, r)[0].index);
  }

  /** Episodes: if some proper video is tagged with exactly the episode, the chosen file is a
      proper video whose tag or range covers it. */
  lemma ExactTagWins(files: seq<File>, r: Request, k: nat)
    requires !ValidIndex(files, r) && ForEpisode(r) && forall f <- files :: f.size >= 0
    requires k < |files| && Proper(files[k]) && TaggedExactly(files[k], r.season.value, r.episode.value)
    ensures var s := Select(files, r);
            0 <= s.index < |files| && Proper(files[s.index]) && Covers(files[s.index], r) && s.reason == ExactMatch
  {
    WinnerPoints(files, r, k);
    ExactPoints(files[k], r);
    TopPoints(Ranked(files, r)[0].file, r);
    ChosenIsWinner(files, r);
  }

  /** Movies: if there is a proper video, the chosen file is one. */
  lemma MovieGetsProperVideo(files: seq<File>, r: Request, k: nat)
    requires !ValidIndex(files, r) && !ForEpisode(r) && forall f <- files :: f.size >= 0
    requires k < |files| && Proper(files[k])
    ensures var s := Select(files, r); 0 <= s.index < |files| && Proper(files[s.index])
  {
    WinnerPoints(files, r, k);
    MoviePoints(files[k], r);
    MoviePoints(Ranked(files, r)[0].file, r);
    ChosenIsWinner(files, r);
  }

  /** An explicit index is obeyed exactly when it names a video; nothing else is tried then. */
  lemma ExplicitIndexIsFinal(files: seq<File>, r: Request)
    requires ValidIndex(files, r)
    ensures Select(files, r).index == if IsVideo(files[r.fileIdx.value]) then r.fileIdx.value else -1
  {
  }

  // ---------------------------------------------------------------- what the verdict means

  /** The verdict of a good match is never given for another episode: a score above 1000 means
      that the file's tag, range or absolute number is the one asked for. For a movie no file
      scores that much. */
  lemma GoodVerdictMeansCovered(files: seq<File>, r: Request)
    requires files != [] && !ValidIndex(files, r) && forall f <- files :: f.size >= 0
    requires Select(files, r).reason.ExactMatch? || Select(files, r).reason.MultiOrAnime?
    ensures var s := Select(files, r);
            && 0 <= s.index < |files| && ForEpisode(r) && Proper(files[s.index])
            && (Covers(files[s.index], r) || CountedAbsolutely(files[s.index], r.season.value, r.episode.value))
  {
    WinnerPoints(files, r, 0);
    ChosenIsWinner(files, r);
    var w := Ranked(files, r)[0];
    assert w.score > 1000;
    HighPoints(w.file, r);
    HighPointsSample(w.file, r);
  }

  /** The absolute number of the file is the episode, and neither its tag nor its range is. */
  predicate AbsoluteOnly(f: File, r: Request) {
    ForEpisode(r) && !Covers(f, r) && CountedAbsolutely(f, r.season.value, r.episode.value)
  }

  lemma AbsolutePoints(f: File, r: Request)
    requires Proper(f) && AbsoluteOnly(f, r)
    ensures IsTiny(f) ==> 1205 <= Points(f, r) <= 1250
    ensures !IsTiny(f) ==> Points(f, r) >= 1505
  {
    ExtensionWeights(f);
  }

  lemma OtherPoints(f: File, r: Request)
    requires IsVideo(f) && !(Proper(f) && (Covers(f, r) || AbsoluteOnly(f, r)))
    ensures Points(f, r) <= 50
  {
    ExtensionWeights(f);
  }

  lemma CoveringPoints(f: File, r: Request)
    requires Proper(f) && Covers(f, r)
    ensures Points(f, r) >= 1505
  {
    ExtensionWeights(f);
  }

  /** When each of the two good verdicts is given, for the winner of the scores. `exact` needs a
      proper video that the tag or the range covers, or one whose absolute number is the episode
      and that is not tiny. The other good verdict is left for tiny files with an absolute number:
      it is never given to a range of episodes. */
  lemma GoodVerdictsIff(files: seq<File>, r: Request)
    requires files != [] && !ValidIndex(files, r) && forall f <- files :: f.size >= 0
    ensures MaxSize(files) >= 1 && |Ranked(files, r)| == |files|
    ensures var w := Ranked(files, r)[0].file;
            && (Select(files, r).reason.ExactMatch? <==>
                  Proper(w) && (Covers(w, r) || (AbsoluteOnly(w, r) && !IsTiny(w))))
            && (Select(files, r).reason.MultiOrAnime? <==> Proper(w) && AbsoluteOnly(w, r) && IsTiny(w))
  {
    WinnerPoints(files, r, 0);
    ChosenIsWinner(files, r);
    var w := Ranked(files, r)[0];
    ScoreBounds(files, r, w.index);
    WinnerIsFirstBest(files, r);
    if IsVideo(w.file) {
      if Proper(w.file) && Covers(w.file, r) {
        CoveringPoints(w.file, r);
      } else if Proper(w.file) && AbsoluteOnly(w.file, r) {
        AbsolutePoints(w.file, r);
      } else {
        OtherPoints(w.file, r);
      }
    }
  }

  /** The verdict `exact` is also given for a range that merely covers the episode. */
  lemma RangeIsCalledExact(name: string, size: nat)
    ensures var f := File(name, "mkv", false, size, Tag(1, 1, true, false), Some(Range(1, 1, 4)));
            var r := Request(None, Some(1), Some(3));
            Select([f], r).index == 0 && !TaggedExactly(f, 1, 3) && Select([f], r).reason == ExactMatch
  {
    var f := File(name, "mkv", false, size, Tag(1, 1, true, false), Some(Range(1, 1, 4)));
    var r := Request(None, Some(1), Some(3));
    WinnerIsFirstBest([f], r);
    ChosenIsWinner([f], r);
    ScoreBounds([f], r, 0);
  }

  /** It is given for an absolute number in a request for season 0, too. */
  lemma AbsoluteIsCalledExact(name: string)
    ensures var f := File(name, "mkv", false, 100 * 1024 * 1024, Tag(1, 4, false, true), None);
            var r := Request(None, Some(0), Some(4));
            Select([f], r).index == 0 && Select([f], r).reason == ExactMatch && !Covers(f, r)
  {
    var f := File(name, "mkv", false, 100 * 1024 * 1024, Tag(1, 4, false, true), None);
    var r := Request(None, Some(0), Some(4));
    WinnerPoints([f], r, 0);
    ChosenIsWinner([f], r);
    GoodVerdictsIff([f], r);
  }

  /** When no proper video is tagged with the episode, a file with an unknown extension that is
      can come out first, and then no file is chosen although there is a video. */
  lemma UnknownExtensionShadowsVideo(size: nat)
    requires size >= 30 * 1024 * 1024
    ensures var part := File("Show.S01E02.mkv.part", "part", false, size, Tag(1, 2, false, false), None);
            var video := File("Show.S01E01.mkv", "mkv", false, size, Tag(1, 1, false, false), None);
            var s := Select([part, video], Request(None, Some(1), Some(2)));
            s.index == -1 && s.reason == NoVideo && Proper(video)
  {
    var part := File("Show.S01E02.mkv.part", "part", false, size, Tag(1, 2, false, false), None);
    var video := File("Show.S01E01.mkv", "mkv", false, size, Tag(1, 1, false, false), None);
    var files, r := [part, video], Request(None, Some(1), Some(2));
    WinnerPoints(files, r, 0);
    assert files[1] in files && files[0] in files;
    assert !IsVideo(part) && Points(part, r) == 1500;
    assert Points(video, r) <= -3900;
    ChosenIsWinner(files, r);
  }

  /** Whenever scores decide, no file is chosen exactly when the winner, the first file with the
      highest score, is not a video. */
  lemma NothingChosenIff(files: seq<File>, r: Request, w: nat)
    requires w < |files| && !ValidIndex(files, r)
    requires MaxSize(files) >= 1
    requires forall i :: 0 <= i < |files| ==> Score(files[i], r, MaxSize(files)) <= Score(files[w], r, MaxSize(files))
    requires forall i :: 0 <= i < w ==> Score(files[i], r, MaxSize(files)) < Score(files[w], r, MaxSize(files))
    ensures Select(files, r).index == -1 <==> !IsVideo(files[w])
    ensures IsVideo(files[w]) ==> Select(files, r).index == w
  {
    WinnerIsFirstBest(files, r);
    ChosenIsWinner(files, r);
    var x := Ranked(files, r)[0];
    assert x.index == w;
  }

  /** How a movie request ranks files, by what can be read off each of them. */
  function MovieClass(f: File): nat {
    if Proper(f) then 4
    else if !IsVideo(f) && f.ext !in NON_VIDEO && !f.sample then 3
    else if IsVideo(f) then 2
    else if f.ext !in NON_VIDEO then 1
    else 0
  }

  lemma MovieClassPoints(f: File, g: File, r: Request)
    requires !ForEpisode(r) && MovieClass(f) > MovieClass(g)
    ensures Points(f, r) > Points(g, r) + 50
  {
    ExtensionWeights(f);
    ExtensionWeights(g);
  }

  /** For a movie no file is chosen exactly when there is no proper video and either a file with
      an unknown extension that is no sample, which then wins, or no video at all. */
  lemma MovieNothingChosenIff(files: seq<File>, r: Request)
    requires files != [] && !ValidIndex(files, r) && !ForEpisode(r) && forall f <- files :: f.size >= 0
    ensures Select(files, r).index == -1
            <==> (forall f <- files :: !Proper(f)) && ((exists f <- files :: MovieClass(f) == 3) || forall f <- files :: !IsVideo(f))
  {
    WinnerPoints(files, r, 0);
    ChosenIsWinner(files, r);
    var w := Ranked(files, r)[0];
    forall f | f in files ensures MovieClass(f) <= MovieClass(w.file) {
      var k :| 0 <= k < |files| && files[k] == f;
      WinnerPoints(files, r, k);
      if MovieClass(f) > MovieClass(w.file) { MovieClassPoints(f, w.file, r); }
    }
    assert w.file in files;
  }

  // ---------------------------------------------------------------- the loop

  method LargestSize(files: seq<File>) returns (largest: int)
    ensures largest == MaxSize(files)
  {
    largest := 1;
    for i := 0 to |files|
      invariant largest == MaxSize(files[..i])
    {
      assert files[..i + 1][..i] == files[..i];
      largest := Max(largest, files[i].size);
    }
    assert files[..|files|] == files;
  }

  /** One turn of the loop: the score grows with every reason that is found. */
  method ScoreFile(f: File, r: Request, largest: int) returns (score: int, reasons: seq<Reason>)
    requires largest >= 1
    ensures score == Score(f, r, largest) && reasons == Reasons(f, r)
  {
    score := 0;
    if f.ext in NON_VIDEO {
      score := score - 10000;
      reasons := [NonVideoExtension];
    } else if f.ext in VIDEO {
      score := score + VIDEO[f.ext];
      reasons := [VideoExtension(f.ext)];
    } else {
      score := score - 500;
      reasons := [UnknownExtension];
    }
    if f.sample {
      score := score - 5000;
      reasons := reasons + [SampleOrBonus];
    }
    score := score + SizeScore(f.size, largest);
    if f.size < 30 * 1024 * 1024 && f.size > 0 {
      score := score - 300;
      reasons := reasons + [Tiny];
    }
    if r.season.Some? && r.episode.Some? {
      var more, reason := ScoreEpisode(f, r.season.value, r.episode.value);
      score := score + more;
      reasons := reasons + [reason];
    }
    TotalIsPoints(f, r);
  }

  method ScoreEpisode(f: File, season: int, episode: int) returns (more: int, reason: Reason)
    ensures reason == EpisodeReason(f, season, episode) && more == Weight(reason)
  {
    if f.tag.Untagged? { return -100, NoEpisodeTag; }
    if f.tag.season == season && f.tag.episode == episode { return 2000, ExactEpisode; }
    if f.tag.multi && RangeCovers(f, season, episode) { return 1800, EpisodeInRange; }
    if f.tag.absolute && (season == 1 || season == 0) && f.tag.episode == episode { return 1500, AbsoluteEpisode; }
    return -4000, OtherEpisode;
  }

  method ScoreAndSelectFile(files: seq<File>, r: Request) returns (s: Selection)
    ensures s == Select(files, r)
  {
    if |files| == 0 { return Selection(-1, NoFiles, []); }
    if r.fileIdx.Some? && r.fileIdx.value >= 0 && r.fileIdx.value < |files| {
      if IsVideo(files[r.fileIdx.value]) { return Explicit(files[r.fileIdx.value], r.fileIdx.value); }
      return Selection(-1, ExplicitNotVideo, []);
    }
    MaxSizeBounds(files);
    var largest := LargestSize(files);
    var candidates: seq<Candidate> := [];
    var i := 0;
    while i < |files|
      invariant 0 <= i <= |files|
      invariant candidates == Candidates(files, r, largest)[..i]
    {
      var score, reasons := ScoreFile(files[i], r, largest);
      candidates := candidates + [Candidate(i, files[i], score, reasons)];
      i := i + 1;
    }
    assert candidates == Candidates(files, r, largest);
    candidates := Sort(ByScore(), candidates);
    if candidates == [] || !IsVideo(candidates[0].file) { return Selection(-1, NoVideo, []); }
    var winner := candidates[0];
    var reason;
    if winner.score > 1500 { reason := ExactMatch; }
    else if winner.score > 1000 { reason := MultiOrAnime; }
    else if winner.score > 0 { reason := BestScoring; }
    else { reason := LowConfidence; }
    s := Selection(winner.index, reason, candidates[..Min(5, |candidates|)]);
  }
}

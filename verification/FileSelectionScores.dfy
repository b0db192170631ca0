/** What decides between two files: sizes, containers and tags, in numbers. */
module FileSelectionScores {
  import opened Prelude
  import opened StableSort
  import opened FileSelection

  // ---------------------------------------------------------------- sizes

  lemma {:induction false} QuotientIs(n: int, d: int, q: int)
    requires d > 0
    ensures n / d == q <==> q * d <= n < (q + 1) * d
  {
    var p := n / d;
    assert p * d <= n < (p + 1) * d;
    if q * d <= n < (q + 1) * d {
      if p < q { Scaled(p + 1, q, d); }
      if q < p { Scaled(q + 1, p, d); }
    }
  }

  lemma Scaled(a: int, b: int, d: int)
    requires a <= b && d > 0
    ensures a * d <= b * d
  {
    assert (b - a) * d >= 0;
  }

  /** The points for a size are the whole number nearest to fifty times its share of the largest,
      halves upwards; so nothing earns 0, the largest 50, and more never less. */
  lemma SizeIsRounded(size: int, largest: int, points: int)
    requires largest >= 1
    ensures SizeScore(size, largest) == points <==> -largest < 2 * (points * largest - 50 * size) <= largest
    ensures SizeScore(0, largest) == 0 && SizeScore(largest, largest) == 50
  {
    QuotientIs(100 * size + largest, 2 * largest, points);
    QuotientIs(largest, 2 * largest, 0);
    QuotientIs(100 * largest + largest, 2 * largest, 50);
  }

  /** With `d` for the largest size and `x`, `y` for the points times `d`, all is linear. */
  lemma Ordered(p: int, q: int, d: int)
    requires d > 0 && q < p
    ensures q * d + d <= p * d
  {
    Scaled(q + 1, p, d);
    assert (q + 1) * d == q * d + d;
  }

  lemma SizeIsMonotone(a: int, b: int, largest: int)
    requires largest >= 1 && a <= b
    ensures SizeScore(a, largest) <= SizeScore(b, largest)
    ensures 50 * (b - a) > largest ==> SizeScore(a, largest) < SizeScore(b, largest)
  {
    var p, q := SizeScore(a, largest), SizeScore(b, largest);
    SizeIsRounded(a, largest, p);
    SizeIsRounded(b, largest, q);
    if q < p { Ordered(p, q, largest); }
  }

  /** The two files are alike but for their names and sizes, and neither is suspiciously small. */
  predicate Alike(f: File, g: File) {
    && f.ext == g.ext && f.sample == g.sample && f.tag == g.tag && f.range == g.range
    && f.size >= 31457280 && g.size >= 31457280
  }

  lemma {:induction false} MaxSizeIsOne(files: seq<File>)
    ensures MaxSize(files) == 1 || exists f <- files :: f.size == MaxSize(files)
  {
    if files != [] {
      MaxSizeIsOne(files[..|files| - 1]);
      assert forall f <- files[..|files| - 1] :: f in files;
    }
  }

  /** Of two files that are alike, one that is smaller by more than a fiftieth of the largest file
      is never chosen. */
  lemma {:induction false} SmallerTwinIsNotChosen(files: seq<File>, r: Request, i: nat, j: nat)
    requires i < |files| && j < |files| && Alike(files[i], files[j])
    requires !(r.fileIdx.Some? && 0 <= r.fileIdx.value < |files|)
    requires forall f <- files :: 50 * (files[i].size - files[j].size) > f.size
    ensures Select(files, r).index != j
  {
    MaxSizeBounds(files);
    MaxSizeIsOne(files);
    var largest := MaxSize(files);
    assert files[i] in files;
    SizeIsMonotone(files[j].size, files[i].size, largest);
    WinnerIsFirstBest(files, r);
    ChosenIsWinner(files, r);
  }

  // ---------------------------------------------------------------- containers

  /** What the containers of videos are worth. */
  function Worth(ext: string): Option<int> {
    match ext
    case "mkv" => Some(50)
    case "mp4" => Some(45)
    case "webm" => Some(40)
    case "m4v" => Some(35)
    case "ts" => Some(30)
    case "m2ts" => Some(25)
    case "avi" => Some(20)
    case "mov" => Some(15)
    case "flv" | "wmv" => Some(10)
    case "mpg" | "mpeg" => Some(5)
    case _ => None
  }

  /** Extensions that are known not to be videos. */
  predicate Refused(ext: string) {
    match ext
    case "nfo" | "txt" | "cue" | "sfv" | "url" | "exe" => true
    case "jpg" | "jpeg" | "png" | "gif" => true
    case "srt" | "sub" | "idx" | "ass" | "vtt" => true
    case _ => false
  }

  lemma WorthIsTable(ext: string)
    ensures ext in VIDEO <==> Worth(ext).Some?
    ensures ext in VIDEO ==> Worth(ext) == Some(VIDEO[ext])
  {
  }

  lemma RefusedIsTable(ext: string)
    ensures ext in NON_VIDEO <==> Refused(ext)
  {
  }

  // ---------------------------------------------------------------- the score in numbers

  /** The points for an episode tag when season `s`, episode `e` is asked for. */
  function TagPoints(f: File, s: int, e: int): int {
    match f.tag
    case Untagged => -100
    case Tag(season, episode, multi, absolute) =>
      if season == s && episode == e then 2000
      else if multi && f.range.Some? && f.range.value.season == s && f.range.value.first <= e <= f.range.value.last then 1800
      else if absolute && s in {0, 1} && episode == e then 1500
      else -4000
  }

  function ContainerPoints(ext: string): int {
    if Refused(ext) then -10000 else Worth(ext).GetOr(-500)
  }

  /** The score of a file, read off the file and the request. */
  lemma ScoreInNumbers(f: File, r: Request, largest: int)
    requires largest >= 1
    ensures Score(f, r, largest)
            == SizeScore(f.size, largest) + ContainerPoints(f.ext)
               + (if f.sample then -5000 else 0)
               + (if 0 < f.size < 31457280 then -300 else 0)
               + (if r.season.Some? && r.episode.Some? then TagPoints(f, r.season.value, r.episode.value) else 0)
  {
    TotalIsPoints(f, r);
    WorthIsTable(f.ext);
    RefusedIsTable(f.ext);
  }

  // ---------------------------------------------------------------- the selection in numbers

  predicate Playable(f: File) {
    Worth(f.ext).Some? && !Refused(f.ext)
  }

  lemma PlayableIsVideo(f: File)
    ensures Playable(f) <==> IsVideo(f)
  {
    WorthIsTable(f.ext);
    RefusedIsTable(f.ext);
  }

  /** The index of the request is a place in the list: it is obeyed or nothing is chosen. */
  lemma {:induction false} ExplicitOutcome(files: seq<File>, r: Request, k: nat)
    requires r.fileIdx == Some(k) && k < |files|
    ensures var s := Select(files, r);
            if Playable(files[k]) then
              s.index == k && s.reason == ExplicitIndex && s.candidates == [Candidate(k, files[k], 10000, [ExplicitFileIndex])]
            else s.index == -1 && s.reason == ExplicitNotVideo && s.candidates == []
  {
    PlayableIsVideo(files[k]);
  }

  /** Otherwise the first file with the highest score decides, and its score gives the verdict. */
  lemma {:induction false} ScoredOutcome(files: seq<File>, r: Request, w: nat)
    requires w < |files| && !(r.fileIdx.Some? && 0 <= r.fileIdx.value < |files|) && MaxSize(files) >= 1
    requires forall i :: 0 <= i < |files| ==> Score(files[i], r, MaxSize(files)) <= Score(files[w], r, MaxSize(files))
    requires forall i :: 0 <= i < w ==> Score(files[i], r, MaxSize(files)) < Score(files[w], r, MaxSize(files))
    ensures var s := Select(files, r);
            var score := Score(files[w], r, MaxSize(files));
            if !Playable(files[w]) then s.index == -1 && s.reason == NoVideo && s.candidates == []
            else
              && s.index == w
              && s.reason == if score > 1500 then ExactMatch else if score > 1000 then MultiOrAnime
                             else if score > 0 then BestScoring else LowConfidence
  {
    PlayableIsVideo(files[w]);
    NothingChosenIff(files, r, w);
    ChosenIsWinner(files, r);
    WinnerIsFirstBest(files, r);
  }

  /** The ranking goes down in score, and each of its members is a file with its score. */
  lemma {:induction false} RankingIsTrue(files: seq<File>, r: Request)
    ensures MaxSize(files) >= 1 && |Ranked(files, r)| == |files|
    ensures forall i, j :: 0 <= i < j < |files| ==> Ranked(files, r)[i].score >= Ranked(files, r)[j].score
    ensures forall c <- Ranked(files, r) ::
              c.index < |files| && c.file == files[c.index] && c.score == Score(c.file, r, MaxSize(files))
  {
    MaxSizeBounds(files);
    var all, le := Candidates(files, r, MaxSize(files)), ByScore();
    ScoreIsPreorder();
    SortSorts(le, all);
    SortContents(le, all);
    forall i, j | 0 <= i < j < |files| ensures Ranked(files, r)[i].score >= Ranked(files, r)[j].score {
      assert le(Ranked(files, r)[i], Ranked(files, r)[j]);
    }
    forall c | c in Ranked(files, r)
      ensures c.index < |files| && c.file == files[c.index] && c.score == Score(c.file, r, MaxSize(files))
    {
      SortMembers(le, all, c);
    }
  }

  lemma {:induction false} TwicePresent<T>(t: seq<T>, i: nat, j: nat)
    requires i < j < |t| && t[i] == t[j]
    ensures multiset(t)[t[i]] >= 2
  {
    var front, back := t[..j], t[j..];
    assert t == front + back;
    assert front[i] in multiset(front) && back[0] in multiset(back);
  }

  lemma {:induction false} AtMostOnce<T>(s: seq<T>, x: T)
    requires forall p, q :: 0 <= p < q < |s| ==> s[p] != s[q]
    ensures multiset(s)[x] <= 1
  {
    if s != [] {
      AtMostOnce(s[1..], x);
      assert s == [s[0]] + s[1..];
      assert s[0] !in s[1..];
    }
  }

  /** What occurs once in a list occurs once in every list of the same contents. */
  lemma {:induction false} OnceStaysOnce<T(!new)>(s: seq<T>, t: seq<T>, i: nat, j: nat)
    requires multiset(s) == multiset(t) && i < j < |t|
    requires forall p, q :: 0 <= p < q < |s| ==> s[p] != s[q]
    ensures t[i] != t[j]
  {
    if t[i] == t[j] {
      TwicePresent(t, i, j);
      AtMostOnce(s, t[i]);
      assert false;
    }
  }

  /** Every file has exactly one place in the ranking. */
  lemma {:induction false} RankingIsComplete(files: seq<File>, r: Request, k: nat) returns (p: nat)
    requires k < |files|
    ensures MaxSize(files) >= 1 && |Ranked(files, r)| == |files|
    ensures p < |files| && Ranked(files, r)[p].index == k
    ensures forall q :: 0 <= q < |files| && q != p ==> Ranked(files, r)[q].index != k
  {
    RankingIsTrue(files, r);
    var all, le, ranked := Candidates(files, r, MaxSize(files)), ByScore(), Ranked(files, r);
    SortContents(le, all);
    SortMembers(le, all, all[k]);
    var o :| 0 <= o < |ranked| && ranked[o] == all[k];
    p := o;
    forall q | 0 <= q < |files| && q != p ensures ranked[q].index != k {
      OnceStaysOnce(all, ranked, if p < q then p else q, if p < q then q else p);
      SortMembers(le, all, ranked[q]);
    }
  }

  /** The candidates reported with a choice are the best five files, or all if there are fewer,
      best first, each once and with its score; no file left out has a higher score than one of
      them. */
  lemma {:induction false} CandidatesAreBest(files: seq<File>, r: Request, k: nat)
    requires k < |files| && !(r.fileIdx.Some? && 0 <= r.fileIdx.value < |files|) && Select(files, r).index >= 0
    ensures MaxSize(files) >= 1
    ensures var cs := Select(files, r).candidates;
            && |cs| == (if |files| < 5 then |files| else 5) && cs[0].index == Select(files, r).index
            && (forall i, j :: 0 <= i < j < |cs| ==> cs[i].score >= cs[j].score)
            && (forall c <- cs :: c.index < |files| && c.file == files[c.index] && c.score == Score(c.file, r, MaxSize(files)))
            && (forall i, j :: 0 <= i < j < |cs| && cs[i].index == k ==> cs[j].index != k)
            && ((exists c <- cs :: c.index == k) || forall c <- cs :: c.score >= Score(files[k], r, MaxSize(files)))
  {
    RankingIsTrue(files, r);
    var p := RankingIsComplete(files, r, k);
    var ranked, cs := Ranked(files, r), Select(files, r).candidates;
    assert cs == ranked[..|cs|];
    assert ranked[p] in ranked;
    if p < |cs| { assert cs[p] in cs; }
  }
}

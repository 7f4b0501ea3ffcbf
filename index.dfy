/** `generate_index`: the Markdown table of contents of a processed
    playlist, one numbered section per video with links to its page, its
    slides and its summary, and the summary's bullet points inline. */
module Index {
  import opened Wrappers
  import opened Text

  /** One video of the playlist, with what exists in its output directory:
      whether `slides.pdf` exists, and the text of `summary.md` when that
      file exists. */
  datatype VideoEntry = VideoEntry(
    videoId: string,
    title: string,
    url: string,
    pdfExists: bool,
    summary: Option<string>)

  // ---------------------------------------------------------------------
  // Bullet points of a summary.

  /** A summary line copied into the index: after stripping, it starts with
      "- " or "* ", but not with "- **" (the bold field lines). */
  predicate IsBullet(line: string)
  {
    var t := Strip(line);
    ("- " <= t || "* " <= t) && !("- **" <= t)
  }

  /** The bullet lines, unchanged and in order. */
  function Bullets(lines: seq<string>): (bs: seq<string>)
    ensures forall b <- bs :: IsBullet(b) && b in lines
    ensures |bs| <= |lines|
  {
    if lines == [] then []
    else if IsBullet(lines[0]) then [lines[0]] + Bullets(lines[1..])
    else Bullets(lines[1..])
  }

  /** Every bullet line of the summary is copied. */
  lemma {:induction false} BulletsComplete(lines: seq<string>, line: string)
    requires line in lines && IsBullet(line)
    ensures line in Bullets(lines)
  {
    if lines[0] != line {
      BulletsComplete(lines[1..], line);
    }
  }

  /** Copying keeps the order of the summary: the bullets of two consecutive
      parts are the bullets of the first followed by those of the second. */
  lemma {:induction false} BulletsAppend(a: seq<string>, b: seq<string>)
    ensures Bullets(a + b) == Bullets(a) + Bullets(b)
  {
    if a != [] {
      assert (a + b)[0] == a[0];
      assert (a + b)[1..] == a[1..] + b;
      BulletsAppend(a[1..], b);
      if IsBullet(a[0]) {
        calc {
          Bullets(a + b);
          [a[0]] + Bullets(a[1..] + b);
          [a[0]] + (Bullets(a[1..]) + Bullets(b));
          ([a[0]] + Bullets(a[1..])) + Bullets(b);
        }
      }
    } else {
      assert a + b == b;
    }
  }

  /** Which summary lines count as bullets. */
  lemma BulletExamples()
    ensures IsBullet("- a") && IsBullet("* a")
    ensures !IsBullet("- **a") && !IsBullet("-a")
  {
    TrimKeptEnds("- a", false);
    TrimKeptEnds("* a", false);
    TrimKeptEnds("- **a", false);
    TrimKeptEnds("-a", false);
  }

  // ---------------------------------------------------------------------
  // The text of the index.

  /** The bullets of a video's summary, followed by a blank line; nothing at
      all when the summary is missing or has no bullets. */
  function BulletBlock(summary: Option<string>): (r: string)
    ensures r == [] <==> summary.None? || Bullets(SplitLines(summary.value)) == []
  {
    if summary.None? then ""
    else
      var bs := Bullets(SplitLines(summary.value));
      if bs == [] then "" else Unlines(bs) + "\n"
  }

  /** A Markdown link. */
  function Link(text: string, target: string): string
  {
    "[" + text + "](" + target + ")"
  }

  /** The links of one section, as (label, target) pairs: the video page
      always, the slides and the summary when their files exist, both given
      relative to the playlist directory. */
  function Links(v: VideoEntry): (ls: seq<(string, string)>)
    ensures ls != [] && ls[0] == ("Video", v.url)
    ensures ("Slides", v.videoId + "/slides.pdf") in ls <==> v.pdfExists
    ensures ("Summary", v.videoId + "/summary.md") in ls <==> v.summary.Some?
    ensures |ls| == 1 + (if v.pdfExists then 1 else 0) + (if v.summary.Some? then 1 else 0)
  {
    [("Video", v.url)]
    + (if v.pdfExists then [("Slides", v.videoId + "/slides.pdf")] else [])
    + (if v.summary.Some? then [("Summary", v.videoId + "/summary.md")] else [])
  }

  /** The links of a section, separated by " | ". */
  function JoinLinks(ls: seq<(string, string)>): string
  {
    if ls == [] then ""
    else if |ls| == 1 then Link(ls[0].0, ls[0].1)
    else Link(ls[0].0, ls[0].1) + " | " + JoinLinks(ls[1..])
  }

  /** The heading of the `n`-th section. */
  function Heading(n: nat, title: string): string
  {
    "## " + NatToString(n) + ". " + title + "\n\n"
  }

  /** The section of the `n`-th video: heading, links, then its bullets. */
  function Section(n: nat, v: VideoEntry): string
  {
    Heading(n, v.title) + JoinLinks(Links(v)) + "\n\n" + BulletBlock(v.summary)
  }

  /** The parts one after the other. */
  function Concat(parts: seq<string>): string
  {
    if parts == [] then "" else parts[0] + Concat(parts[1..])
  }

  lemma {:induction false} ConcatAppend(a: seq<string>, b: seq<string>)
    ensures Concat(a + b) == Concat(a) + Concat(b)
  {
    if a == [] {
      assert a + b == b;
    } else {
      assert (a + b)[1..] == a[1..] + b;
      ConcatAppend(a[1..], b);
    }
  }

  /** The sections of `videos`, numbered from `first`. */
  function SectionList(videos: seq<VideoEntry>, first: nat): (ss: seq<string>)
    ensures |ss| == |videos|
    ensures forall k | 0 <= k < |videos| :: ss[k] == Section(first + k, videos[k])
  {
    seq(|videos|, k requires 0 <= k < |videos| => Section(first + k, videos[k]))
  }

  /** The whole index: the playlist title as heading, then the sections
      numbered from 1 in playlist order. */
  function IndexText(playlistTitle: string, videos: seq<VideoEntry>): string
  {
    "# " + playlistTitle + "\n\n" + Concat(SectionList(videos, 1))
  }

  /** The sections of two consecutive runs of videos, the second numbered on
      from the first. */
  lemma SectionsSplit(a: seq<VideoEntry>, b: seq<VideoEntry>, first: nat)
    ensures Concat(SectionList(a + b, first)) == Concat(SectionList(a, first)) + Concat(SectionList(b, first + |a|))
  {
    assert SectionList(a + b, first) == SectionList(a, first) + SectionList(b, first + |a|);
    ConcatAppend(SectionList(a, first), SectionList(b, first + |a|));
  }

  /** Appending a video to the playlist appends its section to the index,
      numbered after the others. */
  lemma IndexSnoc(playlistTitle: string, videos: seq<VideoEntry>, v: VideoEntry)
    ensures IndexText(playlistTitle, videos + [v]) == IndexText(playlistTitle, videos) + Section(|videos| + 1, v)
  {
    SectionsSplit(videos, [v], 1);
    SingleSection(v, 1 + |videos|);
  }

  /** The sections of a single video are its own section. */
  lemma SingleSection(v: VideoEntry, n: nat)
    ensures Concat(SectionList([v], n)) == Section(n, v)
  {
    assert SectionList([v], n)[1..] == [];
  }

  /** One more video of the playlist adds its section to the index. */
  lemma IndexPrefixStep(playlistTitle: string, videos: seq<VideoEntry>, i: nat)
    requires i < |videos|
    ensures IndexText(playlistTitle, videos[..i + 1]) == IndexText(playlistTitle, videos[..i]) + Section(i + 1, videos[i])
  {
    assert videos[..i + 1] == videos[..i] + [videos[i]];
    IndexSnoc(playlistTitle, videos[..i], videos[i]);
  }

  /** The `k`-th video (from 0) gets the section numbered `k + 1`, after the
      sections of all the videos before it and before those after it. */
  lemma SectionOrder(videos: seq<VideoEntry>, k: nat)
    requires k < |videos|
    ensures Concat(SectionList(videos, 1)) == Concat(SectionList(videos[..k], 1))
      + (Section(k + 1, videos[k]) + Concat(SectionList(videos[k + 1..], k + 2)))
  {
    var before, rest, after := videos[..k], videos[k..], videos[k + 1..];
    assert videos == before + rest;
    SectionsSplit(before, rest, 1);
    assert Concat(SectionList(videos, 1)) == Concat(SectionList(before, 1)) + Concat(SectionList(rest, k + 1));
    assert rest == [videos[k]] + after;
    SectionsSplit([videos[k]], after, k + 1);
    SingleSection(videos[k], k + 1);
  }

  /** The index opens with the playlist title as a level-one heading. */
  lemma IndexHeading(playlistTitle: string, videos: seq<VideoEntry>)
    ensures "# " + playlistTitle + "\n\n" <= IndexText(playlistTitle, videos)
  {
  }

  /** The rendered links read `[Video](url)`, then ` | [Slides](...)` when
      the PDF exists, then ` | [Summary](...)` when the summary exists. */
  lemma LinkLineText(v: VideoEntry)
    ensures JoinLinks(Links(v)) ==
      Link("Video", v.url)
      + (if v.pdfExists then " | " + Link("Slides", v.videoId + "/slides.pdf") else "")
      + (if v.summary.Some? then " | " + Link("Summary", v.videoId + "/summary.md") else "")
  {
    var ls := Links(v);
    if |ls| > 1 {
      assert ls[1..] == Links(v)[1..];
      if |ls| == 3 {
        assert JoinLinks(ls[1..][1..]) == Link(ls[2].0, ls[2].1);
      }
    }
  }

  // ---------------------------------------------------------------------
  // The loop that builds the index.

  /** Appends the bullet lines and the blank line after them. */
  method AppendBullets(md: string, bullets: seq<string>) returns (md': string)
    requires bullets != []
    ensures md' == md + Unlines(bullets) + "\n"
  {
    md' := md;
    for b := 0 to |bullets|
      invariant md' + Unlines(bullets[b..]) == md + Unlines(bullets)
    {
      assert bullets[b..][1..] == bullets[b + 1..];
      md' := md' + bullets[b] + "\n";
    }
    md' := md' + "\n";
  }

  lemma Assoc(a: string, b: string, c: string)
    ensures a + b + c == a + (b + c)
  {
  }

  /** One iteration of the loop: appends the `n`-th section. */
  method AppendSection(md: string, n: nat, v: VideoEntry) returns (md': string)
    ensures md' == md + Section(n, v)
  {
    var heading := "## " + NatToString(n) + ". " + v.title + "\n\n";
    md' := md + heading;
    var video := Link("Video", v.url);
    md' := md' + video;
    ghost var links := video;
    if v.pdfExists {
      var slides := " | " + Link("Slides", v.videoId + "/slides.pdf");
      md' := md' + slides;
      Assoc(md + heading, links, slides);
      links := links + slides;
    }
    if v.summary.Some? {
      var summary := " | " + Link("Summary", v.videoId + "/summary.md");
      md' := md' + summary;
      Assoc(md + heading, links, summary);
      links := links + summary;
    }
    LinkLineText(v);
    assert links == JoinLinks(Links(v));
    md' := md' + "\n\n";
    ghost var block := "";
    if v.summary.Some? {
      var bullets := Bullets(SplitLines(v.summary.value));
      if bullets != [] {
        ghost var before := md';
        md' := AppendBullets(md', bullets);
        Assoc(before, Unlines(bullets), "\n");
        block := Unlines(bullets) + "\n";
      }
    }
    assert md' == md + heading + links + "\n\n" + block;
    assert block == BulletBlock(v.summary);
    Assoc(md, heading + links + "\n\n", block);
    Assoc(md, heading + links, "\n\n");
    Assoc(md, heading, links);
  }

  /** `generate_index`, returning the Markdown text it writes to
      `index.md`. */
  method GenerateIndex(playlistTitle: string, videos: seq<VideoEntry>) returns (md: string)
    ensures md == IndexText(playlistTitle, videos)
  {
    md := "# " + playlistTitle + "\n\n";
    assert SectionList([], 1) == [];
    for i := 0 to |videos|
      invariant md == IndexText(playlistTitle, videos[..i])
    {
      md := AppendSection(md, i + 1, videos[i]);
      IndexPrefixStep(playlistTitle, videos, i);
    }
    assert videos[..|videos|] == videos;
  }
}

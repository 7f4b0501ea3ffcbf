/** `summarize_lecture`: the Markdown summary of one lecture, built from the
    video's metadata and, when there are slides, a model's reply to a few
    evenly spaced ones. */
module Summarize {
  import opened Wrappers
  import opened Text
  import opened Indices
  import Index

  // ---------------------------------------------------------------------
  // `_format_duration`

  /** Hours, minutes and seconds of a duration, by floor division as
      Python's `divmod` does (for a positive divisor Dafny's `/` and `%`
      agree with it, negative durations included). */
  function Clock(seconds: int): (hms: (int, nat, nat))
  {
    var h := seconds / 3600;
    var rem := seconds % 3600;
    (h, rem / 60, rem % 60)
  }

  /** The parts recompose the duration, with minutes and seconds below 60. */
  lemma {:induction false} ClockParts(seconds: int)
    ensures Clock(seconds).0 * 3600 + Clock(seconds).1 * 60 + Clock(seconds).2 == seconds
    ensures Clock(seconds).1 < 60 && Clock(seconds).2 < 60
    ensures seconds >= 0 ==> Clock(seconds).0 >= 0
  {
  }

  /** `_format_duration`: "h:mm:ss" when there are whole hours, "m:ss"
      otherwise. */
  function FormatDuration(seconds: int): (r: string)
  {
    var hms := Clock(seconds);
    ClockText(hms.0, hms.1, hms.2)
  }

  /** The text of a clock reading. */
  function ClockText(h: int, m: nat, s: nat): string
  {
    if h != 0 then IntToString(h) + ":" + Pad2(m) + ":" + Pad2(s)
    else NatToString(m) + ":" + Pad2(s)
  }

  /** The colon-separated fields of a string. */
  function Fields(s: string): (fs: seq<string>)
    ensures |fs| >= 1
    decreases |s|
  {
    var i := IndexOf(s, ':');
    if i == |s| then [s] else [s[..i]] + Fields(s[i + 1..])
  }

  lemma {:induction false} FieldsSingle(a: string)
    requires AllDigits(a)
    ensures Fields(a) == [a]
  {
    assert forall k | 0 <= k < |a| :: a[k] != ':';
  }

  lemma {:induction false} FieldsJoin(a: string, b: string)
    requires AllDigits(a)
    ensures Fields(a + ":" + b) == [a] + Fields(b)
  {
    var s := a + ":" + b;
    assert forall k | 0 <= k < |a| :: s[k] == a[k] && a[k] != ':';
    assert s[|a|] == ':';
    assert IndexOf(s, ':') == |a|;
    assert s[..|a|] == a;
    assert s[|a| + 1..] == b;
  }

  /** Reads a clock string back into seconds: "h:mm:ss" or "m:ss". */
  function ParseDuration(r: string): Option<int>
  {
    var f := Fields(r);
    if |f| == 3 && AllDigits(f[0]) && AllDigits(f[1]) && AllDigits(f[2]) then
      Some(ParseNat(f[0]) * 3600 + ParseNat(f[1]) * 60 + ParseNat(f[2]))
    else if |f| == 2 && AllDigits(f[0]) && AllDigits(f[1]) then
      Some(ParseNat(f[0]) * 60 + ParseNat(f[1]))
    else None
  }

  lemma {:induction false} FieldsThree(a: string, b: string, c: string)
    requires AllDigits(a) && AllDigits(b) && AllDigits(c)
    ensures Fields(a + ":" + b + ":" + c) == [a, b, c]
  {
    var t := b + ":" + c;
    ColonAssoc(a, b, c);
    FieldsSingle(c);
    FieldsJoin(b, c);
    FieldsJoin(a, t);
  }

  lemma {:induction false} ParseThree(a: string, b: string, c: string, x: nat, y: nat, z: nat)
    requires AllDigits(a) && AllDigits(b) && AllDigits(c)
    requires ParseNat(a) == x && ParseNat(b) == y && ParseNat(c) == z
    ensures |Fields(a + ":" + b + ":" + c)| == 3
    ensures ParseDuration(a + ":" + b + ":" + c) == Some(x * 3600 + y * 60 + z)
  {
    FieldsThree(a, b, c);
    var f := Fields(a + ":" + b + ":" + c);
    assert f[0] == a && f[1] == b && f[2] == c;
  }

  lemma {:induction false} ParseTwo(b: string, c: string, y: nat, z: nat)
    requires AllDigits(b) && AllDigits(c)
    requires ParseNat(b) == y && ParseNat(c) == z
    ensures |Fields(b + ":" + c)| == 2
    ensures ParseDuration(b + ":" + c) == Some(y * 60 + z)
  {
    FieldsSingle(c);
    FieldsJoin(b, c);
    var f := Fields(b + ":" + c);
    assert f == [b, c];
    assert f[0] == b && f[1] == c;
  }

  lemma ColonAssoc(a: string, b: string, c: string)
    ensures a + ":" + b + ":" + c == a + ":" + (b + ":" + c)
  {
  }

  /** An "h:mm:ss" reading of `seconds` reads back as `seconds`. */
  lemma {:induction false} HoursTextRoundTrip(h: nat, m: nat, s: nat, seconds: nat)
    requires h != 0 && m < 60 && s < 60 && h * 3600 + m * 60 + s == seconds
    ensures |Fields(ClockText(h, m, s))| == 3
    ensures ParseDuration(ClockText(h, m, s)) == Some(seconds)
  {
    var a, b, c := NatToString(h), Pad2(m), Pad2(s);
    assert ClockText(h, m, s) == a + ":" + b + ":" + c;
    ParseNatToString(h);
    ParsePad2(m);
    ParsePad2(s);
    ParseThree(a, b, c, h, m, s);
  }

  /** An "m:ss" reading of `seconds` reads back as `seconds`. */
  lemma {:induction false} MinutesTextRoundTrip(m: nat, s: nat, seconds: nat)
    requires s < 60 && m * 60 + s == seconds
    ensures |Fields(ClockText(0, m, s))| == 2
    ensures ParseDuration(ClockText(0, m, s)) == Some(seconds)
  {
    var b, c := NatToString(m), Pad2(s);
    assert ClockText(0, m, s) == b + ":" + c;
    ParseNatToString(m);
    ParsePad2(s);
    ParseTwo(b, c, m, s);
  }

  /** A non-negative duration reads back as the same number of seconds, and
      the hour field is present exactly when there are whole hours. */
  lemma {:induction false} FormatDurationRoundTrip(seconds: nat)
    ensures ParseDuration(FormatDuration(seconds)) == Some(seconds)
    ensures |Fields(FormatDuration(seconds))| == (if seconds >= 3600 then 3 else 2)
  {
    ClockParts(seconds);
    var hms := Clock(seconds);
    var h: nat, m, s := hms.0, hms.1, hms.2;
    assert seconds >= 3600 <==> h != 0;
    if h != 0 {
      assert FormatDuration(seconds) == ClockText(h, m, s);
      HoursTextRoundTrip(h, m, s, seconds);
    } else {
      assert FormatDuration(seconds) == ClockText(0, m, s);
      MinutesTextRoundTrip(m, s, seconds);
    }
  }

  // ---------------------------------------------------------------------
  // Metadata

  /** `YYYYMMDD` becomes `YYYY-MM-DD`; a date of any other length is kept. */
  function ReshapeDate(d: string): (r: string)
    ensures |d| != 8 ==> r == d
    ensures |d| == 8 ==> |r| == 10 && r[4] == '-' && r[7] == '-'
  {
    if |d| == 8 then d[..4] + "-" + d[4..6] + "-" + d[6..] else d
  }

  /** Removing the two dashes gives the original date back. */
  lemma {:induction false} ReshapeDateInverse(d: string)
    requires |d| == 8
    ensures var r := ReshapeDate(d); r[..4] + r[5..7] + r[8..] == d
  {
    var r := ReshapeDate(d);
    assert r[..4] == d[..4] && r[5..7] == d[4..6] && r[8..] == d[6..];
    assert d[..4] + d[4..6] + d[6..] == d;
  }

  /** The metadata fields the summary uses, `None` where the key is missing
      from the metadata record. */
  datatype Metadata = Metadata(
    title: Option<string>,
    duration: Option<int>,
    uploader: Option<string>,
    uploadDate: Option<string>)

  /** The header of the summary, with its field lines. */
  datatype Header = Header(title: string, url: string, duration: int, uploader: string, date: string)

  /** The defaults for missing metadata, and the reshaped date. */
  function HeaderOf(url: string, meta: Metadata): (h: Header)
    ensures h.title == (if meta.title.Some? then meta.title.value else "Unknown")
    ensures h.uploader == (if meta.uploader.Some? then meta.uploader.value else "Unknown")
    ensures h.duration == (if meta.duration.Some? then meta.duration.value else 0)
    ensures meta.uploadDate.None? ==> h.date == ""
  {
    Header(
      if meta.title.Some? then meta.title.value else "Unknown",
      url,
      if meta.duration.Some? then meta.duration.value else 0,
      if meta.uploader.Some? then meta.uploader.value else "Unknown",
      ReshapeDate(if meta.uploadDate.Some? then meta.uploadDate.value else ""))
  }

  // ---------------------------------------------------------------------
  // The summary text

  function TitleLine(title: string): string { "# " + title }
  function VideoLine(url: string): string { "- **Video**: [" + url + "](" + url + ")" }
  function DurationLine(seconds: int): string { "- **Duration**: " + FormatDuration(seconds) }
  function UploaderLine(uploader: string): string { "- **Uploader**: " + uploader }
  function DateLine(date: string): string { "- **Date**: " + date }

  /** The title heading, a blank line, and the four field lines. */
  function HeaderLineList(h: Header): seq<string>
  {
    [TitleLine(h.title), "", VideoLine(h.url), DurationLine(h.duration), UploaderLine(h.uploader), DateLine(h.date)]
  }

  function HeaderText(h: Header): string
  {
    Unlines(HeaderLineList(h))
  }

  /** The summary file: the header alone when there are no slides, else the
      header, a blank line and the model's summary under its own heading. */
  function SummaryMarkdown(h: Header, summary: Option<string>): string
  {
    if summary.None? then HeaderText(h)
    else HeaderText(h) + "\n" + "## Summary\n\n" + summary.value + "\n"
  }

  /** The summary written without slides is the beginning of the one
      written with them. */
  lemma {:induction false} WithoutSlidesIsPrefix(h: Header, summary: string)
    ensures SummaryMarkdown(h, None) <= SummaryMarkdown(h, Some(summary))
  {
  }

  /** None of the header lines holds a line break of its own. */
  lemma {:induction false} HeaderLinesUnbroken(h: Header)
    requires NoLineBreak(h.title) && NoLineBreak(h.url) && NoLineBreak(h.uploader) && NoLineBreak(h.date)
    ensures NoLineBreak(TitleLine(h.title)) && NoLineBreak(VideoLine(h.url)) && NoLineBreak(DurationLine(h.duration))
    ensures NoLineBreak(UploaderLine(h.uploader)) && NoLineBreak(DateLine(h.date))
  {
    NoBreakConcat("# ", h.title);
    VideoLineUnbroken(h.url);
    DurationLineUnbroken(h.duration);
    FieldLineUnbroken("- **Uploader**: ", h.uploader);
    FieldLineUnbroken("- **Date**: ", h.date);
  }

  lemma {:induction false} DurationLineUnbroken(seconds: int)
    ensures NoLineBreak(DurationLine(seconds))
  {
    FormatDurationChars(seconds);
    NoBreakConcat("- **Duration**: ", FormatDuration(seconds));
  }

  lemma {:induction false} FieldLineUnbroken(name: string, value: string)
    requires name == "- **Uploader**: " || name == "- **Date**: "
    requires NoLineBreak(value)
    ensures NoLineBreak(name + value)
  {
    NoBreakConcat(name, value);
  }

  lemma {:induction false} VideoLineUnbroken(url: string)
    requires NoLineBreak(url)
    ensures NoLineBreak(VideoLine(url))
  {
    NoBreakConcat("- **Video**: [", url);
    NoBreakConcat("- **Video**: [" + url, "](");
    NoBreakConcat("- **Video**: [" + url + "](", url);
    NoBreakConcat("- **Video**: [" + url + "](" + url, ")");
  }

  /** Read back as lines, the header is the title heading, a blank line,
      then the Video, Duration, Uploader and Date lines in that order. */
  lemma {:induction false} HeaderLines(h: Header)
    requires NoLineBreak(h.title) && NoLineBreak(h.url) && NoLineBreak(h.uploader) && NoLineBreak(h.date)
    ensures SplitLines(HeaderText(h)) == [TitleLine(h.title), "",
      VideoLine(h.url), DurationLine(h.duration), UploaderLine(h.uploader), DateLine(h.date)]
  {
    HeaderLinesUnbroken(h);
    SplitUnlines(HeaderLineList(h));
  }

  lemma {:induction false} NoBreakConcat(a: string, b: string)
    requires NoLineBreak(a) && NoLineBreak(b)
    ensures NoLineBreak(a + b)
  {
    assert forall k | 0 <= k < |a + b| :: (a + b)[k] == if k < |a| then a[k] else b[k - |a|];
  }

  /** A formatted duration holds only digits, colons and a minus sign. */
  lemma {:induction false} FormatDurationChars(seconds: int)
    ensures NoLineBreak(FormatDuration(seconds))
  {
    var (h, m, s) := Clock(seconds);
    var p, q := Pad2(m), Pad2(s);
    assert NoLineBreak(p) && NoLineBreak(q);
    var hs := if h != 0 then IntToString(h) else NatToString(m);
    if h < 0 {
      assert NoLineBreak(NatToString(-h));
      NoBreakConcat("-", NatToString(-h));
    }
    assert NoLineBreak(hs);
    NoBreakConcat(hs, ":");
    if h != 0 {
      NoBreakConcat(hs + ":", p);
      NoBreakConcat(hs + ":" + p, ":");
      NoBreakConcat(hs + ":" + p + ":", q);
    } else {
      NoBreakConcat(hs + ":", q);
    }
  }

  /** None of the field lines is copied into the playlist index as a
      bullet point: they all start with "- **". */
  lemma {:induction false} FieldLinesAreNotBullets(h: Header)
    ensures !Index.IsBullet(VideoLine(h.url)) && !Index.IsBullet(DurationLine(h.duration))
    ensures !Index.IsBullet(UploaderLine(h.uploader)) && !Index.IsBullet(DateLine(h.date))
  {
    var lines := [VideoLine(h.url), DurationLine(h.duration), UploaderLine(h.uploader), DateLine(h.date)];
    forall l <- lines
      ensures "- **" <= Strip(l)
    {
      assert "- **" <= l;
      TrimKeepsPrefix(l, "- **", false);
    }
  }

  // ---------------------------------------------------------------------
  // Choosing the slides shown to the model

  /** `min(5, count)`, the number of slides shown. */
  function SampleCount(count: nat): nat
  {
    if count < 5 then count else 5
  }

  /** `max(1, count // n)`, the distance between shown slides. */
  function Step(count: nat): (step: nat)
    requires count >= 1
    ensures step >= 1 && SampleCount(count) * step <= count
  {
    var n := SampleCount(count);
    StepFits(count, n);
    if count / n > 1 then count / n else 1
  }

  /** At most five slide indices, evenly spaced from 0. */
  function SampleIndices(count: nat): (idx: seq<nat>)
    requires count >= 1
    ensures |idx| == SampleCount(count)
    ensures forall k | 0 <= k < |idx| :: idx[k] == k * Step(count)
    ensures Increasing(idx)
    ensures forall k | 0 <= k < |idx| :: idx[k] < count
  {
    var n, step := SampleCount(count), Step(count);
    var idx := seq(n, i requires 0 <= i < n => SampleAt(i, n, step, count));
    assert Increasing(idx) by {
      forall a, b | 0 <= a < b < n
        ensures idx[a] < idx[b]
      {
        MulLess(a, b, step);
      }
    }
    idx
  }

  lemma {:induction false} StepFits(count: nat, n: nat)
    requires 1 <= n <= count
    ensures n * (count / n) <= count
  {
    assert count == (count / n) * n + count % n;
  }

  lemma {:induction false} MulLess(a: nat, b: nat, step: nat)
    requires a < b && step >= 1
    ensures a * step < b * step
    decreases b - a
  {
    MulSucc(b - 1, step);
    if a < b - 1 {
      MulLess(a, b - 1, step);
    }
  }

  lemma {:induction false} MulSucc(x: nat, step: nat)
    ensures (x + 1) * step == x * step + step
  {
  }

  function SampleAt(i: nat, n: nat, step: nat, count: nat): (x: nat)
    requires i < n && 1 <= step && n * step <= count
    ensures x == i * step && x < count
  {
    MulLess(i, n, step);
    i * step
  }

  /** With five slides or fewer, every slide is shown. */
  lemma {:induction false} FewSlidesAllShown(count: nat)
    requires 1 <= count <= 5
    ensures SampleIndices(count) == seq(count, i => i)
  {
    assert count / count == 1;
    assert Step(count) == 1;
    var idx := SampleIndices(count);
    forall k | 0 <= k < count
      ensures idx[k] == k
    {
      assert idx[k] == k * 1;
    }
  }

  // ---------------------------------------------------------------------
  // The whole operation

  /** What `summarize_lecture` leaves behind. */
  datatype Outcome =
    | AlreadySummarized         // `summary.md` existed and was kept
    | Written(markdown: string) // the text written to `summary.md`
    | Failed                    // the request raised; nothing was written

  /** `summarize_lecture`. `outputExists` says whether `summary.md`
      exists; `slideCount` is the number of slide images; `reply` is the
      text of the model's reply to the prompt built from the slides at the
      returned `samples` indices, `None` when the request or the reading of
      the reply's first block raises. */
  method SummarizeLecture(url: string, outputExists: bool, meta: Metadata, slideCount: nat, reply: Option<string>)
    returns (outcome: Outcome, samples: seq<nat>)
    ensures outputExists ==> outcome == AlreadySummarized && samples == []
    ensures !outputExists && slideCount == 0 ==>
      outcome == Written(SummaryMarkdown(HeaderOf(url, meta), None)) && samples == []
    ensures !outputExists && slideCount > 0 ==>
      samples == SampleIndices(slideCount) &&
      outcome == if reply.None? then Failed
        else Written(SummaryMarkdown(HeaderOf(url, meta), Some(Strip(reply.value))))
  {
    samples := [];
    if outputExists {
      return AlreadySummarized, samples;
    }
    var title := if meta.title.Some? then meta.title.value else "Unknown";
    var duration := if meta.duration.Some? then meta.duration.value else 0;
    var uploader := if meta.uploader.Some? then meta.uploader.value else "Unknown";
    var uploadDate := if meta.uploadDate.Some? then meta.uploadDate.value else "";
    if |uploadDate| == 8 {
      uploadDate := uploadDate[..4] + "-" + uploadDate[4..6] + "-" + uploadDate[6..];
    }
    ghost var h := Header(title, url, duration, uploader, uploadDate);
    assert h == HeaderOf(url, meta);
    var md := WriteHeader(title, url, duration, uploader, uploadDate);
    if slideCount == 0 {
      return Written(md), samples;
    }
    samples := SampleIndices(slideCount);
    if reply.None? {
      return Failed, samples;
    }
    var summaryText := Strip(reply.value);
    md := md + "\n";
    md := md + "## Summary\n\n" + summaryText + "\n";
    outcome := Written(md);
  }

  /** The header lines, appended one by one. */
  method WriteHeader(title: string, url: string, duration: int, uploader: string, date: string)
    returns (md: string)
    ensures md == HeaderText(Header(title, url, duration, uploader, date))
  {
    md := TitleLine(title) + "\n" + "\n";
    md := md + VideoLine(url) + "\n";
    md := md + DurationLine(duration) + "\n";
    md := md + UploaderLine(uploader) + "\n";
    md := md + DateLine(date) + "\n";
    UnlinesSix(TitleLine(title), VideoLine(url), DurationLine(duration), UploaderLine(uploader), DateLine(date));
  }

  /** The six header lines appended one after the other are their
      `Unlines`. */
  lemma {:induction false} UnlinesSix(t: string, v: string, d: string, u: string, a: string)
    ensures Unlines([t, "", v, d, u, a]) == t + "\n" + "\n" + v + "\n" + d + "\n" + u + "\n" + a + "\n"
  {
    var lines := [t, "", v, d, u, a];
    assert Unlines(lines[..1]) == t + "\n" by {
      assert Unlines(lines[..1]) == t + "\n" + Unlines([]);
    }
    HeaderStep(lines, 1);
    HeaderStep(lines, 2);
    HeaderStep(lines, 3);
    HeaderStep(lines, 4);
    HeaderStep(lines, 5);
    assert lines[..6] == lines;
  }

  lemma {:induction false} HeaderStep(lines: seq<string>, k: nat)
    requires k < |lines|
    ensures Unlines(lines[..k + 1]) == Unlines(lines[..k]) + lines[k] + "\n"
  {
    assert lines[..k + 1] == lines[..k] + [lines[k]];
    UnlinesSnoc(lines[..k], lines[k]);
  }
}
